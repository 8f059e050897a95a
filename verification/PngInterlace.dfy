/**
 Interlacing and deinterlacing: every pixel is copied between its place in the image and its place
 in its pass. The two directions share their loops.
 */
module PngInterlace {
  import opened Bits
  import opened PngLines
  import opened PngBits
  import opened Adam7

  ghost predicate SamePixel(d: seq<bit>, dp: nat, s: seq<bit>, sp: nat, bpp: nat)
  {
    dp + bpp <= |d| && sp + bpp <= |s| && d[dp..dp + bpp] == s[sp..sp + bpp]
  }

  /** The passes hold the pixels of the image. */
  ghost predicate Interlaced(passes: seq<bit>, img: seq<bit>, w: nat, h: nat, bpp: nat)
  {
    forall x: nat, y: nat :: x < w && y < h ==>
      SamePixel(passes, PassPos(w, h, bpp, x, y), img, ImgPos(w, bpp, x, y), bpp)
  }

  // ---------- equal pixels, equal images ----------

  ghost predicate SameImages(a: seq<bit>, b: seq<bit>, w: nat, h: nat, bpp: nat)
  {
    forall x: nat, y: nat :: x < w && y < h ==>
      SamePixel(a, ImgPos(w, bpp, x, y), b, ImgPos(w, bpp, x, y), bpp)
  }

  /** What is interlaced twice from or to the same passes is the same image. */
  lemma SamePasses(passes: seq<bit>, a: seq<bit>, b: seq<bit>, w: nat, h: nat, bpp: nat)
    requires Interlaced(passes, a, w, h, bpp) && Interlaced(passes, b, w, h, bpp)
    ensures SameImages(a, b, w, h, bpp)
  {
    hide PassPos, ImgPos;
    forall x: nat, y: nat | x < w && y < h
      ensures SamePixel(a, ImgPos(w, bpp, x, y), b, ImgPos(w, bpp, x, y), bpp)
    {
      assert SamePixel(passes, PassPos(w, h, bpp, x, y), a, ImgPos(w, bpp, x, y), bpp);
      assert SamePixel(passes, PassPos(w, h, bpp, x, y), b, ImgPos(w, bpp, x, y), bpp);
    }
  }

  lemma JoinEqual(a: seq<bit>, b: seq<bit>, n: nat, m: nat)
    requires n + m <= |a| && n + m <= |b| && a[..n] == b[..n] && a[n..n + m] == b[n..n + m]
    ensures a[..n + m] == b[..n + m]
  {
    assert a[..n + m] == a[..n] + a[n..n + m] && b[..n + m] == b[..n] + b[n..n + m];
  }

  /** The first n pixels of line y. */
  lemma {:induction false} SameLine(a: seq<bit>, b: seq<bit>, w: nat, h: nat, bpp: nat, y: nat, n: nat)
    requires SameImages(a, b, w, h, bpp) && y < h && n <= w
    requires Rows(y, Rows(w, bpp)) <= |a| && Rows(y, Rows(w, bpp)) <= |b|
    requires a[..Rows(y, Rows(w, bpp))] == b[..Rows(y, Rows(w, bpp))]
    ensures GridPos(w, bpp, n, y) <= |a| && GridPos(w, bpp, n, y) <= |b|
    ensures a[..GridPos(w, bpp, n, y)] == b[..GridPos(w, bpp, n, y)]
  {
    if n > 0 {
      SameLine(a, b, w, h, bpp, y, n - 1);
      assert SamePixel(a, ImgPos(w, bpp, n - 1, y), b, ImgPos(w, bpp, n - 1, y), bpp);
      JoinEqual(a, b, GridPos(w, bpp, n - 1, y), bpp);
    }
  }

  /** Images with the same pixels have the same bits. */
  lemma {:induction false} SameBits(a: seq<bit>, b: seq<bit>, w: nat, h: nat, bpp: nat, n: nat)
    requires SameImages(a, b, w, h, bpp) && n <= h
    ensures Rows(n, Rows(w, bpp)) <= |a| && Rows(n, Rows(w, bpp)) <= |b|
    ensures a[..Rows(n, Rows(w, bpp))] == b[..Rows(n, Rows(w, bpp))]
  {
    if n > 0 {
      SameBits(a, b, w, h, bpp, n - 1);
      SameLine(a, b, w, h, bpp, n - 1, w);
    }
  }

  // ---------- the loops ----------

  /** Pixel (x, y) comes before column px of row py of pass i. */
  predicate Visited(x: nat, y: nat, i: nat, px: nat, py: nat)
  {
    var p := PassOf(x, y);
    p < i || (p == i && (PassY(x, y) < py || (PassY(x, y) == py && PassX(x, y) < px)))
  }

  function Target(toPasses: bool, w: nat, h: nat, bpp: nat, x: nat, y: nat): nat
  {
    if toPasses then PassPos(w, h, bpp, x, y) else ImgPos(w, bpp, x, y)
  }

  function Source(toPasses: bool, w: nat, h: nat, bpp: nat, x: nat, y: nat): nat
  {
    if toPasses then ImgPos(w, bpp, x, y) else PassPos(w, h, bpp, x, y)
  }

  ghost predicate MovedUpTo(d: seq<bit>, s: seq<bit>, w: nat, h: nat, bpp: nat, toPasses: bool, i: nat, px: nat, py: nat)
  {
    forall x: nat, y: nat :: x < w && y < h && Visited(x, y, i, px, py) ==>
      SamePixel(d, Target(toPasses, w, h, bpp, x, y), s, Source(toPasses, w, h, bpp, x, y), bpp)
  }

  lemma TargetsDisjoint(toPasses: bool, w: nat, h: nat, bpp: nat, x: nat, y: nat, x': nat, y': nat)
    requires x < w && y < h && x' < w && y' < h && (x != x' || y != y')
    ensures var t, t' := Target(toPasses, w, h, bpp, x, y), Target(toPasses, w, h, bpp, x', y');
            t + bpp <= t' || t' + bpp <= t
  {
    hide PassPos, GridPos;
    if toPasses {
      PassPosDisjoint(w, h, bpp, x, y, x', y');
    } else {
      GridDisjoint(w, bpp, x, y, x', y');
    }
  }

  /** A pixel visited before the next one is either visited before this one, or is this one. */
  lemma VisitedNext(w: nat, h: nat, i: nat, px: nat, py: nat, x: nat, y: nat)
    requires i < 7 && px < PassW(w, h, i) && py < PassH(w, h, i) && x < w && y < h
    ensures Visited(x, y, i, px + 1, py) ==> Visited(x, y, i, px, py) || (x == ImgX(i, px) && y == ImgY(i, py))
    ensures Visited(x, y, i, px, py) ==> x != ImgX(i, px) || y != ImgY(i, py)
  {
    hide PassOf, PassX, PassY, ImgX, ImgY, PassW, PassH;
    PixelInPass(w, h, x, y);
    PassInImage(w, h, i, px, py);
  }

  lemma MovePixelDone(d: seq<bit>, s: seq<bit>, w: nat, h: nat, bpp: nat, toPasses: bool, i: nat, px: nat, py: nat)
    requires i < 7 && px < PassW(w, h, i) && py < PassH(w, h, i) && MovedUpTo(d, s, w, h, bpp, toPasses, i, px, py)
    requires Target(toPasses, w, h, bpp, ImgX(i, px), ImgY(i, py)) + bpp <= |d|
    requires Source(toPasses, w, h, bpp, ImgX(i, px), ImgY(i, py)) + bpp <= |s|
    ensures var t, u := Target(toPasses, w, h, bpp, ImgX(i, px), ImgY(i, py)), Source(toPasses, w, h, bpp, ImgX(i, px), ImgY(i, py));
            MovedUpTo(Overwrite(d, t, s[u..u + bpp]), s, w, h, bpp, toPasses, i, px + 1, py)
  {
    hide Visited, Target, Source, Overwrite, PassW, PassH, ImgX, ImgY, PassX, PassY, PassOf;
    var X, Y := ImgX(i, px), ImgY(i, py);
    var t, u := Target(toPasses, w, h, bpp, X, Y), Source(toPasses, w, h, bpp, X, Y);
    var d' := Overwrite(d, t, s[u..u + bpp]);
    var next := px + 1;
    PassInImage(w, h, i, px, py);
    OverwriteRead(d, t, s[u..u + bpp]);
    forall x: nat, y: nat | x < w && y < h && Visited(x, y, i, next, py)
      ensures SamePixel(d', Target(toPasses, w, h, bpp, x, y), s, Source(toPasses, w, h, bpp, x, y), bpp)
    {
      VisitedNext(w, h, i, px, py, x, y);
      if Visited(x, y, i, px, py) {
        assert SamePixel(d, Target(toPasses, w, h, bpp, x, y), s, Source(toPasses, w, h, bpp, x, y), bpp);
        TargetsDisjoint(toPasses, w, h, bpp, x, y, X, Y);
        OverwriteElsewhere(d, t, s[u..u + bpp], Target(toPasses, w, h, bpp, x, y), bpp);
      }
    }
  }

  lemma NothingMoved(d: seq<bit>, s: seq<bit>, w: nat, h: nat, bpp: nat, toPasses: bool)
    ensures MovedUpTo(d, s, w, h, bpp, toPasses, 0, 0, 0)
  {
    hide SamePixel, Target, Source;
  }

  lemma RowMoved(d: seq<bit>, s: seq<bit>, w: nat, h: nat, bpp: nat, toPasses: bool, i: nat, py: nat, m: nat)
    requires i < 7 && MovedUpTo(d, s, w, h, bpp, toPasses, i, PassW(w, h, i), py) && m == py + 1
    ensures MovedUpTo(d, s, w, h, bpp, toPasses, i, 0, m)
  {
    hide SamePixel, Target, Source, PassOf, PassX, PassY, PassW, PassH, ImgX, ImgY;
    forall x: nat, y: nat | x < w && y < h && Visited(x, y, i, 0, m)
      ensures Visited(x, y, i, PassW(w, h, i), py)
    {
      PixelInPass(w, h, x, y);
    }
  }

  lemma PassMoved(d: seq<bit>, s: seq<bit>, w: nat, h: nat, bpp: nat, toPasses: bool, i: nat, m: nat)
    requires i < 7 && MovedUpTo(d, s, w, h, bpp, toPasses, i, 0, PassH(w, h, i)) && m == i + 1
    ensures MovedUpTo(d, s, w, h, bpp, toPasses, m, 0, 0)
  {
    hide SamePixel, Target, Source, PassOf, PassX, PassY, PassW, PassH, ImgX, ImgY;
    forall x: nat, y: nat | x < w && y < h && Visited(x, y, m, 0, 0)
      ensures Visited(x, y, i, 0, PassH(w, h, i))
    {
      PixelInPass(w, h, x, y);
    }
  }

  lemma AllMoved(d: seq<bit>, s: seq<bit>, w: nat, h: nat, bpp: nat, toPasses: bool)
    requires MovedUpTo(d, s, w, h, bpp, toPasses, 7, 0, 0)
    ensures if toPasses then Interlaced(d, s, w, h, bpp) else Interlaced(s, d, w, h, bpp)
  {
    hide PassPos, ImgPos, PassX, PassY, PassOf;
    forall x: nat, y: nat | x < w && y < h
      ensures Visited(x, y, 7, 0, 0)
    {
      assert PassOf(x, y) < 7;
    }
    forall x: nat, y: nat | x < w && y < h
      ensures if toPasses then SamePixel(d, PassPos(w, h, bpp, x, y), s, ImgPos(w, bpp, x, y), bpp)
              else SamePixel(s, PassPos(w, h, bpp, x, y), d, ImgPos(w, bpp, x, y), bpp)
    {
      assert SamePixel(d, Target(toPasses, w, h, bpp, x, y), s, Source(toPasses, w, h, bpp, x, y), bpp);
    }
  }

  // ---------- one pixel ----------

  /** A pixel of whole bytes. */
  method CopyPixelBytes(out: array<byte>, o: nat, inp: array<byte>, i: nat, bytewidth: nat)
    requires out != inp && o + bytewidth <= out.Length && i + bytewidth <= inp.Length
    modifies out
    ensures |AllBits(inp[..])| == 8 * inp.Length && |AllBits(old(out[..]))| == 8 * out.Length
    ensures AllBits(out[..])
         == Overwrite(AllBits(old(out[..])), 8 * o, AllBits(inp[..])[8 * i..8 * i + 8 * bytewidth])
  {
    hide AllBits, Overwrite;
    ghost var s0, t := out[..], inp[..];
    OverwriteNothing(s0, o);
    assert t[i..i] == [];
    var b := 0;
    while b < bytewidth
      invariant b <= bytewidth && out[..] == Overwrite(s0, o, t[i..i + b])
    {
      OverwriteSnoc(s0, o, t[i..i + b], t[i + b]);
      assert t[i..i + b + 1] == t[i..i + b] + [t[i + b]];
      out[o + b] := inp[i + b];
      b := b + 1;
    }
    BitsOfOverwrite(s0, o, t[i..i + bytewidth]);
    BitsOfSlice(t, i, bytewidth);
    BitsSize(s0);
    BitsSize(t);
  }

  /** The products with which the code finds a pixel. */
  lemma PixelIndex(width: nat, bpp: nat, x: nat, y: nat)
    ensures GridPos(width, bpp, x, y) == y * (bpp * width) + x * bpp
    ensures bpp % 8 == 0 ==> GridPos(width, bpp, x, y) == 8 * ((y * width + x) * (bpp / 8))
  {
    RowsIsProduct(width, bpp);
    RowsIsProduct(x, bpp);
    RowsIsProduct(y, width * bpp);
    if bpp % 8 == 0 {
      var b := bpp / 8;
      EightFold(y, width, x, b);
    }
  }

  lemma EightFold(y: nat, w: nat, x: nat, b: nat)
    ensures y * (w * (8 * b)) + x * (8 * b) == 8 * ((y * w + x) * b)
  {
    var yw := y * w;
    assert (yw + x) * b == yw * b + x * b;
    assert y * (w * b) == yw * b;
    assert w * (8 * b) == 8 * (w * b);
    assert y * (8 * (w * b)) == 8 * (y * (w * b));
  }

  /** The code's position of a pixel in its pass. */
  lemma PassIndex(w: nat, h: nat, bpp: nat, i: nat, px: nat, py: nat)
    requires i < 7 && px < PassW(w, h, i) && py < PassH(w, h, i)
    ensures PassPos(w, h, bpp, ImgX(i, px), ImgY(i, py))
         == 8 * PassStart(w, h, bpp, i) + GridPos(PassW(w, h, i), bpp, px, py)
  {
    hide PassOf, PassX, PassY, ImgX, ImgY, PassW, PassH, PassStart, GridPos;
    PassInImage(w, h, i, px, py);
  }

  lemma PixelFits(w: nat, h: nat, bpp: nat, i: nat, px: nat, py: nat)
    requires i < 7 && px < PassW(w, h, i) && py < PassH(w, h, i)
    ensures PassPos(w, h, bpp, ImgX(i, px), ImgY(i, py)) + bpp <= 8 * PassStart(w, h, bpp, 7)
    ensures ImgPos(w, bpp, ImgX(i, px), ImgY(i, py)) + bpp <= Rows(h, Rows(w, bpp))
  {
    hide PassOf, PassX, PassY, ImgX, ImgY, PassW, PassH, PassStart, GridPos, PassPos, PassBits, Rows;
    PassInImage(w, h, i, px, py);
    PassPosInside(w, h, bpp, ImgX(i, px), ImgY(i, py));
    GridInside(w, h, bpp, ImgX(i, px), ImgY(i, py));
  }

  predicate GoodDepth(bpp: nat)
  {
    bpp < 8 || bpp % 8 == 0
  }

  /** Room for the image in one buffer and for the passes in the other. */
  predicate Room(outlen: nat, inlen: nat, w: nat, h: nat, bpp: nat, toPasses: bool)
  {
    && Rows(h, Rows(w, bpp)) <= 8 * (if toPasses then inlen else outlen)
    && PassStart(w, h, bpp, 7) <= (if toPasses then outlen else inlen)
  }

  /** Moves pixel (px, py) of pass i. */
  method MovePixel(out: array<byte>, inp: array<byte>, w: nat, h: nat, bpp: nat, toPasses: bool, i: nat, px: nat, py: nat,
                   passw: nat, start: nat)
    requires out != inp && GoodDepth(bpp) && Room(out.Length, inp.Length, w, h, bpp, toPasses)
    requires i < 7 && px < PassW(w, h, i) && py < PassH(w, h, i)
    requires passw == PassW(w, h, i) && start == PassStart(w, h, bpp, i)
    requires MovedUpTo(AllBits(out[..]), AllBits(inp[..]), w, h, bpp, toPasses, i, px, py)
    modifies out
    ensures MovedUpTo(AllBits(out[..]), AllBits(inp[..]), w, h, bpp, toPasses, i, px + 1, py)
  {
    hide AllBits, Overwrite, MovedUpTo, PassPos, ImgX, ImgY, PassW, PassH, PassStart, Rows, GridPos,
         ADAM7_IX, ADAM7_IY, ADAM7_DX, ADAM7_DY, Room;
    ImgTables(i, px);
    ImgTables(i, py);
    PixelFits(w, h, bpp, i, px, py);
    PassIndex(w, h, bpp, i, px, py);
    var x, y := ADAM7_IX[i] + px * ADAM7_DX[i], ADAM7_IY[i] + py * ADAM7_DY[i];
    PixelIndex(w, bpp, x, y);
    PixelIndex(passw, bpp, px, py);
    RoomFits(out.Length, inp.Length, w, h, bpp, toPasses);
    BitsSize(out[..]);
    BitsSize(inp[..]);
    MovePixelDone(AllBits(out[..]), AllBits(inp[..]), w, h, bpp, toPasses, i, px, py);
    if bpp >= 8 {
      var bytewidth := bpp / 8;
      var imgpos, passpos := (y * w + x) * bytewidth, start + (py * passw + px) * bytewidth;
      if toPasses {
        CopyPixelBytes(out, passpos, inp, imgpos, bytewidth);
      } else {
        CopyPixelBytes(out, imgpos, inp, passpos, bytewidth);
      }
    } else {
      var imgpos, passpos := y * (bpp * w) + x * bpp, 8 * start + (py * (bpp * passw) + px * bpp);
      if toPasses {
        MoveBits(out, passpos, inp, imgpos, bpp);
      } else {
        MoveBits(out, imgpos, inp, passpos, bpp);
      }
    }
  }

  lemma RoomFits(outlen: nat, inlen: nat, w: nat, h: nat, bpp: nat, toPasses: bool)
    requires Room(outlen, inlen, w, h, bpp, toPasses)
    ensures toPasses ==> Rows(h, Rows(w, bpp)) <= 8 * inlen && 8 * PassStart(w, h, bpp, 7) <= 8 * outlen
    ensures !toPasses ==> Rows(h, Rows(w, bpp)) <= 8 * outlen && 8 * PassStart(w, h, bpp, 7) <= 8 * inlen
  {
  }

  method MovePass(out: array<byte>, inp: array<byte>, w: nat, h: nat, bpp: nat, toPasses: bool, i: nat,
                  passw: nat, passh: nat, start: nat)
    requires out != inp && GoodDepth(bpp) && Room(out.Length, inp.Length, w, h, bpp, toPasses) && i < 7
    requires passw == PassW(w, h, i) && passh == PassH(w, h, i) && start == PassStart(w, h, bpp, i)
    requires MovedUpTo(AllBits(out[..]), AllBits(inp[..]), w, h, bpp, toPasses, i, 0, 0)
    modifies out
    ensures MovedUpTo(AllBits(out[..]), AllBits(inp[..]), w, h, bpp, toPasses, i + 1, 0, 0)
  {
    hide AllBits, MovedUpTo, PassW, PassH, PassStart, Room;
    var y := 0;
    while y < passh
      invariant y <= passh && MovedUpTo(AllBits(out[..]), AllBits(inp[..]), w, h, bpp, toPasses, i, 0, y)
    {
      var x := 0;
      while x < passw
        invariant x <= passw && MovedUpTo(AllBits(out[..]), AllBits(inp[..]), w, h, bpp, toPasses, i, x, y)
      {
        MovePixel(out, inp, w, h, bpp, toPasses, i, x, y, passw, start);
        x := x + 1;
      }
      RowMoved(AllBits(out[..]), AllBits(inp[..]), w, h, bpp, toPasses, i, y, y + 1);
      y := y + 1;
    }
    PassMoved(AllBits(out[..]), AllBits(inp[..]), w, h, bpp, toPasses, i, i + 1);
  }

  method MovePasses(out: array<byte>, inp: array<byte>, w: nat, h: nat, bpp: nat, toPasses: bool)
    requires out != inp && GoodDepth(bpp) && Room(out.Length, inp.Length, w, h, bpp, toPasses)
    modifies out
    ensures if toPasses then Interlaced(AllBits(out[..]), AllBits(inp[..]), w, h, bpp)
            else Interlaced(AllBits(inp[..]), AllBits(out[..]), w, h, bpp)
  {
    hide AllBits, MovedUpTo, PassW, PassH, PassStart, Room, Interlaced;
    var v := GetPassValues(w, h, bpp);
    NothingMoved(AllBits(out[..]), AllBits(inp[..]), w, h, bpp, toPasses);
    var i := 0;
    while i != 7
      invariant i <= 7 && MovedUpTo(AllBits(out[..]), AllBits(inp[..]), w, h, bpp, toPasses, i, 0, 0)
    {
      MovePass(out, inp, w, h, bpp, toPasses, i, v.passw[i], v.passh[i], v.start[i]);
      i := i + 1;
    }
    AllMoved(AllBits(out[..]), AllBits(inp[..]), w, h, bpp, toPasses);
  }

  /** Adam7_interlace */
  method Interlace(out: array<byte>, inp: array<byte>, w: nat, h: nat, bpp: nat)
    requires out != inp && GoodDepth(bpp) && Room(out.Length, inp.Length, w, h, bpp, true)
    modifies out
    ensures Interlaced(AllBits(out[..]), AllBits(inp[..]), w, h, bpp)
  {
    MovePasses(out, inp, w, h, bpp, true);
  }

  /** Adam7_deinterlace */
  method Deinterlace(out: array<byte>, inp: array<byte>, w: nat, h: nat, bpp: nat)
    requires out != inp && GoodDepth(bpp) && Room(out.Length, inp.Length, w, h, bpp, false)
    modifies out
    ensures Interlaced(AllBits(inp[..]), AllBits(out[..]), w, h, bpp)
  {
    MovePasses(out, inp, w, h, bpp, false);
  }
}
