/**
 Unfiltering a whole (reduced) image. The output may be the buffer the filtered lines are in: each
 line has one byte less than before, so writing never catches up with reading.
 */
module PngUnfilter {
  import opened Bits
  import opened PngLines
  import opened PngFilters
  import opened PngUnfilterLoops

  /** Bytes of a scanline without its filter type byte. */
  function LineBytes(w: nat, bpp: nat): nat
  {
    (w * bpp + 7) / 8
  }

  /** Bytes of a pixel, at least one: the distance the filters look to the left. */
  function ByteWidth(bpp: nat): nat
  {
    (bpp + 7) / 8
  }

  /** The smallest whole numbers of bytes that hold a line, and a pixel. */
  lemma SmallestBytes(w: nat, bpp: nat, n: nat)
    ensures n >= LineBytes(w, bpp) <==> 8 * n >= w * bpp
    ensures n >= ByteWidth(bpp) <==> 8 * n >= bpp
  {
  }

  lemma LineHoldsPixel(w: nat, bpp: nat)
    requires w > 0 && bpp > 0
    ensures 1 <= ByteWidth(bpp) <= LineBytes(w, bpp)
  {
    assert w * bpp == (w - 1) * bpp + bpp;
    assert (w - 1) * bpp >= 0;
  }

  /** The code's expression, which avoids the product of width and depth. */
  method RawSizeIdat(w: nat, h: nat, bpp: nat) returns (size: nat)
    ensures size == h * (1 + LineBytes(w, bpp))
  {
    var line := (w / 8) * bpp + 1 + ((w % 8) * bpp + 7) / 8;
    LineSum(w / 8, w % 8, w, bpp);
    size := h * line;
  }

  lemma LineSum(q: nat, r: nat, w: nat, bpp: nat)
    requires w == 8 * q + r
    ensures q * bpp + 1 + (r * bpp + 7) / 8 == 1 + LineBytes(w, bpp)
  {
    assert w * bpp == 8 * (q * bpp) + r * bpp;
  }

  // ---------- the loop ----------

  /** The filtered lines fs are in the input at off, from line y on. */
  ghost predicate Pending(t: seq<byte>, off: nat, fs: seq<seq<byte>>, len: nat, y: nat)
  {
    && LinesOf(fs, len + 1) && y <= |fs| && off + Rows(|fs|, len + 1) <= |t|
    && forall k: nat :: y <= k < |fs| ==> LineAt(t, off, len + 1, k, fs[k])
  }

  ghost predicate LineAt(t: seq<byte>, off: nat, len: nat, k: nat, line: seq<byte>)
  {
    off + Rows(k, len) + len <= |t| && t[off + Rows(k, len)..off + Rows(k, len) + len] == line
  }

  lemma ChopPending(t: seq<byte>, off: nat, len: nat, h: nat)
    requires off + Rows(h, len + 1) <= |t|
    ensures Pending(t, off, Chop(t[off..off + Rows(h, len + 1)], len + 1, h), len, 0)
  {
    hide Rows, Chop;
    var s := t[off..off + Rows(h, len + 1)];
    var fs := Chop(s, len + 1, h);
    var width := len + 1;
    forall k: nat | k < |fs|
      ensures LineAt(t, off, width, k, fs[k])
    {
      ChopLine(s, width, h, k);
      assert s[Rows(k, width)..Rows(k, width) + width]
          == t[off + Rows(k, width)..off + Rows(k, width) + width];
    }
  }

  /** Writing line y of the output leaves the pending input alone. */
  lemma StillPending(t: seq<byte>, t': seq<byte>, off: nat, fs: seq<seq<byte>>, len: nat, y: nat, o: nat, row: seq<byte>)
    requires Pending(t, off, fs, len, y) && y < |fs| && |row| == len
    requires o + len <= |t| && o <= off + Rows(y, len) && t' == Overwrite(t, o, row)
    ensures Pending(t', off, fs, len, y + 1)
  {
    hide Rows, Overwrite;
    var width, next := len + 1, y + 1;
    RowsLonger(y, len, width);
    RowsMono(y, next, width);
    forall k: nat | next <= k < |fs|
      ensures LineAt(t', off, width, k, fs[k])
    {
      assert LineAt(t, off, width, k, fs[k]);
      RowsMono(next, k, width);
      OverwriteElsewhere(t, o, row, off + Rows(k, width), width);
    }
  }

  /** The next filtered line, where the code reads it. */
  lemma NextPending(t: seq<byte>, off: nat, fs: seq<seq<byte>>, len: nat, y: nat)
    requires Pending(t, off, fs, len, y) && y < |fs|
    ensures off + Rows(y, len + 1) + 1 + len <= |t| && |fs[y]| == len + 1
    ensures t[off + Rows(y, len + 1)] == fs[y][0]
    ensures t[off + Rows(y, len + 1) + 1..off + Rows(y, len + 1) + 1 + len] == fs[y][1..]
  {
    hide Rows;
    assert LineAt(t, off, len + 1, y, fs[y]);
  }

  /** The first y lines are unfiltered. */
  ghost predicate UnfilteredUpTo(s: seq<byte>, s0: seq<byte>, off: nat, fs: seq<seq<byte>>, ls: seq<seq<byte>>,
                                 len: nat, bw: nat, y: nat)
  {
    && bw > 0 && LinesOf(fs, len + 1) && y <= |fs| && |ls| == y && LinesOf(ls, len)
    && UnfilterLines(fs[..y], bw) == Lines(ls)
    && |Flat(ls)| == Rows(y, len) && off + Rows(|fs|, len) <= |s0|
    && off + |Flat(ls)| <= |s0| && s == Overwrite(s0, off, Flat(ls))
  }

  lemma NothingUnfiltered(s: seq<byte>, off: nat, fs: seq<seq<byte>>, len: nat, bw: nat)
    requires bw > 0 && LinesOf(fs, len + 1) && off + Rows(|fs|, len) <= |s|
    ensures UnfilteredUpTo(s, s, off, fs, [], len, bw, 0)
  {
    OverwriteNothing(s, off);
  }

  lemma NextUnfiltered(s: seq<byte>, s0: seq<byte>, off: nat, fs: seq<seq<byte>>, ls: seq<seq<byte>>,
                       len: nat, bw: nat, y: nat, row: seq<byte>)
    requires UnfilteredUpTo(s, s0, off, fs, ls, len, bw, y) && y < |fs| && fs[y][0] <= 4
    requires row == UnfilterRow(fs[y][0], fs[y][1..], Last(ls), bw)
    ensures off + Rows(y, len) + |row| <= |s|
    ensures UnfilteredUpTo(Overwrite(s, off + Rows(y, len), row), s0, off, fs, ls + [row], len, bw, y + 1)
  {
    hide UnfilterRow, Overwrite;
    assert fs[..y + 1][..y] == fs[..y];
    RowsMono(y, |fs|, len);
    FlatSnoc(ls, row);
    OverwriteMore(s0, off, Flat(ls), row);
  }

  /** The line above is the one unfiltered last. */
  lemma AboveIsLast(s: seq<byte>, s0: seq<byte>, off: nat, fs: seq<seq<byte>>, ls: seq<seq<byte>>,
                    len: nat, bw: nat, y: nat, p: int)
    requires UnfilteredUpTo(s, s0, off, fs, ls, len, bw, y)
    requires p == if y == 0 then -1 else off + Rows(y - 1, len)
    ensures p >= 0 ==> p + len == off + Rows(y, len) <= |s|
    ensures LineAbove(s, p, len) == Last(ls)
  {
    hide Overwrite, UnfilterLines;
    if y > 0 {
      FlatLine(ls, len, y - 1);
      OverwriteRead(s0, off, Flat(ls));
      var flat := s[off..off + |Flat(ls)|];
      assert flat[Rows(y - 1, len)..Rows(y - 1, len) + len] == s[p..p + len];
    }
  }

  lemma {:induction false} BadPrefix(fs: seq<seq<byte>>, bw: nat, y: nat)
    requires bw > 0 && y <= |fs| && forall k :: 0 <= k < |fs| ==> |fs[k]| > 0
    requires UnfilterLines(fs[..y], bw).BadFilter?
    ensures UnfilterLines(fs, bw).BadFilter?
    decreases |fs|
  {
    if y == |fs| {
      assert fs[..y] == fs;
    } else {
      assert fs[..|fs| - 1][..y] == fs[..y];
      BadPrefix(fs[..|fs| - 1], bw, y);
    }
  }

  lemma BadLine(fs: seq<seq<byte>>, bw: nat, y: nat)
    requires bw > 0 && y < |fs| && (forall k :: 0 <= k < |fs| ==> |fs[k]| > 0) && fs[y][0] > 4
    ensures UnfilterLines(fs, bw).BadFilter?
  {
    assert fs[..y + 1][y] == fs[y];
    BadPrefix(fs, bw, y + 1);
  }

  lemma AllUnfiltered(s: seq<byte>, s0: seq<byte>, off: nat, fs: seq<seq<byte>>, ls: seq<seq<byte>>, len: nat, bw: nat)
    requires UnfilteredUpTo(s, s0, off, fs, ls, len, bw, |fs|)
    ensures UnfilterLines(fs, bw) == Lines(ls) && off + |Flat(ls)| <= |s0| && s == Overwrite(s0, off, Flat(ls))
  {
    assert fs[..|fs|] == fs;
  }

  lemma NonEmptyLines(fs: seq<seq<byte>>, len: nat)
    requires LinesOf(fs, len + 1)
    ensures forall k :: 0 <= k < |fs| ==> |fs[k]| > 0
  {
  }

  /** The lines that h filtered lines at off stand for. */
  function DecodeLines(s: seq<byte>, off: nat, len: nat, h: nat, bw: nat): (r: Lines)
    requires bw > 0 && off + Rows(h, len + 1) <= |s|
  {
    NonEmptyLines(Chop(s[off..off + Rows(h, len + 1)], len + 1, h), len);
    UnfilterLines(Chop(s[off..off + Rows(h, len + 1)], len + 1, h), bw)
  }

  /** Undoes one line whose parts are known. */
  method UnfilterKnown(out: array<byte>, o: nat, inp: array<byte>, i0: nat, p: int, bw: nat, kind: byte, len: nat,
                       ghost scan: seq<byte>, ghost above: seq<byte>, ghost s: seq<byte>)
    returns (error: nat)
    requires o + len <= out.Length && i0 + len <= inp.Length && 1 <= bw <= len
    requires (p >= 0 ==> p + len <= o) && (out == inp ==> o <= i0)
    requires s == out[..] && scan == inp[..][i0..i0 + len] && above == LineAbove(s, p, len)
    modifies out
    ensures error == if kind > 4 then 36 else 0
    ensures error == 0 ==> out[..] == Overwrite(s, o, UnfilterRow(kind, scan, above, bw))
  {
    hide UnfilterRow, Overwrite, LineAbove;
    assert inp[i0..i0 + len] == inp[..][i0..i0 + len];
    error := UnfilterScanline(out, o, inp, i0, p, bw, kind, len);
  }

  /** The pending lines after line y was written, in the same buffer or in another. */
  lemma PendingKept(t: seq<byte>, t': seq<byte>, off: nat, fs: seq<seq<byte>>, len: nat, y: nat, o: nat, row: seq<byte>, same: bool)
    requires Pending(t, off, fs, len, y) && y < |fs| && |row| == len
    requires if same then o + len <= |t| && o <= off + Rows(y, len) && t' == Overwrite(t, o, row) else t' == t
    ensures Pending(t', off, fs, len, y + 1)
  {
    hide Pending, Rows, Overwrite;
    if same {
      StillPending(t, t', off, fs, len, y, o, row);
    } else {
      PendingLess(t, off, fs, len, y);
    }
  }

  /** One line: the code's indices are the ones of the lines. */
  method UnfilterOne(out: array<byte>, outindex: nat, inp: array<byte>, inindex: nat, len: nat, bw: nat, prevline: int,
                     ghost outoff: nat, ghost inoff: nat, ghost y: nat, ghost s0: seq<byte>, ghost fs: seq<seq<byte>>, ghost ls: seq<seq<byte>>)
    returns (error: nat, ghost row: seq<byte>)
    requires y < |fs| && 1 <= bw <= len
    requires UnfilteredUpTo(out[..], s0, outoff, fs, ls, len, bw, y) && Pending(inp[..], inoff, fs, len, y)
    requires (out == inp ==> outoff <= inoff) && prevline == if y == 0 then -1 else outoff + Rows(y - 1, len)
    requires outindex == outoff + Rows(y, len) && inindex == inoff + Rows(y, len + 1)
    modifies out
    ensures |fs[y]| > 0 && error == if fs[y][0] > 4 then 36 else 0
    ensures error == 0 ==> UnfilteredUpTo(out[..], s0, outoff, fs, ls + [row], len, bw, y + 1)
    ensures error == 0 ==> Pending(inp[..], inoff, fs, len, y + 1)
  {
    hide UnfilteredUpTo, Pending, Rows, UnfilterLines, UnfilterRow, Overwrite, LineAbove, Last;
    RowsLonger(y, len, len + 1);
    ghost var s, t, line := out[..], inp[..], fs[y];
    NextPending(t, inoff, fs, len, y);
    AboveIsLast(s, s0, outoff, fs, ls, len, bw, y, prevline);
    UnfilteredRoom(s, s0, outoff, fs, ls, len, bw, y);
    var kind := inp[inindex];
    row := UnfilterRow(kind, line[1..], Last(ls), bw);
    error := UnfilterKnown(out, outindex, inp, inindex + 1, prevline, bw, kind, len, line[1..], Last(ls), s);
    if error == 0 {
      NextUnfiltered(s, s0, outoff, fs, ls, len, bw, y, row);
      assert out != inp ==> inp[..] == t;
      PendingKept(t, inp[..], inoff, fs, len, y, outindex, row, out == inp);
    }
  }

  lemma UnfilteredRoom(s: seq<byte>, s0: seq<byte>, off: nat, fs: seq<seq<byte>>, ls: seq<seq<byte>>,
                       len: nat, bw: nat, y: nat)
    requires UnfilteredUpTo(s, s0, off, fs, ls, len, bw, y) && y < |fs|
    ensures off + Rows(y, len) + len <= |s|
  {
    RowsMono(y, |fs|, len);
  }

  lemma PendingLess(t: seq<byte>, off: nat, fs: seq<seq<byte>>, len: nat, y: nat)
    requires Pending(t, off, fs, len, y) && y < |fs|
    ensures Pending(t, off, fs, len, y + 1)
  {
    hide Rows, LineAt;
  }

  /** Unfilters h lines; the result, or error 36, is what `DecodeLines` says of the input lines. */
  method Unfilter(out: array<byte>, outoff: nat, inp: array<byte>, inoff: nat, w: nat, h: nat, bpp: nat)
    returns (error: nat)
    requires bpp > 0 && (w == 0 ==> h == 0) && (out == inp ==> outoff <= inoff)
    requires inoff + Rows(h, LineBytes(w, bpp) + 1) <= inp.Length && outoff + Rows(h, LineBytes(w, bpp)) <= out.Length
    modifies out
    ensures var len := LineBytes(w, bpp);
            var r := DecodeLines(old(inp[..]), inoff, len, h, ByteWidth(bpp));
            && error == (if r.Lines? then 0 else 36)
            && (error == 0 ==> outoff + |Flat(r.ls)| <= out.Length && out[..] == Overwrite(old(out[..]), outoff, Flat(r.ls)))
  {
    hide UnfilteredUpTo, Pending, Rows, UnfilterLines, UnfilterRow, Overwrite, LineAbove, LineBytes, Chop;
    var size := RawSizeIdat(w, 1, bpp);
    var bw, len := (bpp + 7) / 8, size - 1;
    ghost var fs := Chop(inp[..][inoff..inoff + Rows(h, len + 1)], len + 1, h);
    ChopPending(inp[..], inoff, len, h);
    NonEmptyLines(fs, len);
    ghost var s0, ls := out[..], [];
    NothingUnfiltered(s0, outoff, fs, len, bw);
    if w > 0 {
      LineHoldsPixel(w, bpp);
    }
    var prevline := -1;
    var y := 0;
    while y < h
      invariant y <= h && UnfilteredUpTo(out[..], s0, outoff, fs, ls, len, bw, y) && Pending(inp[..], inoff, fs, len, y)
      invariant prevline == if y == 0 then -1 else outoff + Rows(y - 1, len)
    {
      ghost var row;
      RowsIsProduct(y, len);
      RowsIsProduct(y, len + 1);
      var outindex, inindex := outoff + len * y, inoff + (1 + len) * y;
      error, row := UnfilterOne(out, outindex, inp, inindex, len, bw, prevline, outoff, inoff, y, s0, fs, ls);
      if error != 0 {
        BadLine(fs, bw, y);
        return;
      }
      ls := ls + [row];
      prevline := outindex;
      y := y + 1;
    }
    AllUnfiltered(out[..], s0, outoff, fs, ls, len, bw);
    error := 0;
  }
}
