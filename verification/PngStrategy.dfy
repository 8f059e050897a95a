/**
 Choosing a filter type for each line and writing the filtered lines.
 */
module PngStrategies {
  import opened Bits
  import opened PngLines
  import opened PngFilters
  import opened PngFilterLoops
  import opened PngUnfilter
  import opened DeflateBlocks
  import opened Zlib

  /** LFS_ZERO .. LFS_FOUR are 0 .. 4. */
  const LFS_ZERO: nat := 0
  const LFS_FOUR: nat := 4
  const LFS_MINSUM: nat := 5
  const LFS_ENTROPY: nat := 6
  const LFS_BRUTE_FORCE: nat := 7
  const LFS_PREDEFINED: nat := 8

  const LCT_PALETTE: nat := 3

  /** Colour type, and bits per sample. */
  datatype ColorMode = ColorMode(colortype: nat, bitdepth: nat)
  {
    function Channels(): nat
    {
      if colortype == 0 || colortype == LCT_PALETTE then 1
      else if colortype == 2 then 3
      else if colortype == 4 then 2
      else if colortype == 6 then 4
      else 0
    }

    function Bpp(): nat
    {
      Channels() * bitdepth
    }
  }

  /** Bits of a pixel: grey, red-green-blue, palette index, grey with alpha, and all four. */
  lemma PixelBits(depth: nat)
    ensures ColorMode(0, depth).Bpp() == depth && ColorMode(LCT_PALETTE, depth).Bpp() == depth
    ensures ColorMode(2, depth).Bpp() == 3 * depth && ColorMode(4, depth).Bpp() == 2 * depth
    ensures ColorMode(6, depth).Bpp() == 4 * depth
    ensures forall c: nat :: c !in {0, 2, 3, 4, 6} ==> ColorMode(c, depth).Bpp() == 0
  {
  }

  datatype FilterSettings = FilterSettings(strategy: nat, paletteZero: bool, predefined: seq<byte>, zlib: CompressSettings)

  // ---------- scores ----------

  /** Differences count as signed bytes; type 0 is not a difference. */
  function Weight(kind: nat, b: byte): nat
  {
    if kind == 0 || b < 128 then b else 255 - b
  }

  function SumOf(kind: nat, row: seq<byte>): nat
  {
    if |row| == 0 then 0 else SumOf(kind, row[..|row| - 1]) + Weight(kind, row[|row| - 1])
  }

  method AbsoluteSum(kind: nat, row: seq<byte>) returns (sum: nat)
    ensures sum == SumOf(kind, row)
  {
    sum := 0;
    var x := 0;
    while x != |row|
      invariant x <= |row| && sum == SumOf(kind, row[..x])
    {
      assert row[..x + 1][..x] == row[..x];
      var s: nat := row[x];
      if kind == 0 {
        sum := sum + s;
      } else {
        sum := sum + if s < 128 then s else 255 - s;
      }
      x := x + 1;
    }
    assert row[..x] == row;
  }

  /** The cascade of shifts; the largest l with 2^l <= i. */
  method Ilog2(i0: nat) returns (result: nat)
    requires i0 < 0x1_0000_0000
    ensures result == Log2(i0)
  {
    var i := i0;
    result := 0;
    if i >= 65536 { LogHalves16(i); result := result + 16; i := i / 65536; }
    if i >= 256 { LogHalves8(i); result := result + 8; i := i / 256; }
    if i >= 16 { LogHalves4(i); result := result + 4; i := i / 16; }
    if i >= 4 { LogHalves2(i); result := result + 2; i := i / 4; }
    if i >= 2 { result := result + 1; }
  }

  function Log2(i: nat): nat
  {
    if i < 2 then 0 else Log2(i / 2) + 1
  }

  lemma LogHalves2(i: nat)
    requires i >= 4
    ensures Log2(i) == Log2(i / 4) + 2
  {
    assert i / 2 / 2 == i / 4;
  }

  lemma LogHalves4(i: nat)
    requires i >= 16
    ensures Log2(i) == Log2(i / 16) + 4
  {
    hide Log2;
    LogHalves2(i);
    LogHalves2(i / 4);
    assert i / 4 / 4 == i / 16;
  }

  lemma LogHalves8(i: nat)
    requires i >= 256
    ensures Log2(i) == Log2(i / 256) + 8
  {
    hide Log2;
    LogHalves4(i);
    LogHalves4(i / 16);
    assert i / 16 / 16 == i / 256;
  }

  lemma LogHalves16(i: nat)
    requires i >= 65536
    ensures Log2(i) == Log2(i / 65536) + 16
  {
    hide Log2;
    LogHalves8(i);
    LogHalves8(i / 256);
    assert i / 256 / 256 == i / 65536;
  }

  /** It is the binary logarithm. */
  lemma {:induction false} Log2Bounds(i: nat)
    requires i > 0
    ensures Pow2(Log2(i)) <= i < 2 * Pow2(Log2(i))
  {
    if i >= 2 {
      Log2Bounds(i / 2);
    }
  }

  /** An approximation of i * log2(i). */
  function EntropyTerm(i: nat): nat
  {
    if i == 0 then 0
    else
      Log2Bounds(i);
      i * Log2(i) + 2 * (i - Pow2(Log2(i)))
  }

  method Ilog2i(i: nat) returns (r: nat)
    requires i < 0x1_0000_0000
    ensures r == EntropyTerm(i)
  {
    hide Log2;
    if i == 0 {
      return 0;
    }
    var l := Ilog2(i);
    Log2Bounds(i);
    r := i * l + 2 * (i - Pow2(l));
  }

  /** How often a byte occurs in a row. */
  function Occurrences(row: seq<byte>, v: nat): (n: nat)
    ensures n <= |row|
  {
    if |row| == 0 then 0 else Occurrences(row[..|row| - 1], v) + if row[|row| - 1] == v then 1 else 0
  }

  /** The sum of the terms of the first n byte values. */
  function EntropyOf(row: seq<byte>, n: nat): nat
  {
    if n == 0 then 0 else EntropyOf(row, n - 1) + EntropyTerm(Occurrences(row, n - 1))
  }

  /** The score of a row together with its filter type byte. */
  method EntropySum(kind: byte, row: seq<byte>) returns (sum: nat)
    requires |row| + 1 < 0x1_0000_0000
    ensures sum == EntropyOf(row + [kind], 256)
  {
    hide EntropyTerm;
    var count := CountBytes(kind, row);
    sum := 0;
    var x := 0;
    while x != 256
      invariant x <= 256 && sum == EntropyOf(row + [kind], x)
      invariant forall v :: 0 <= v < 256 ==> count[v] == Occurrences(row + [kind], v)
    {
      var term := Ilog2i(count[x]);
      sum := sum + term;
      x := x + 1;
    }
  }

  method CountBytes(kind: byte, row: seq<byte>) returns (count: array<nat>)
    ensures fresh(count) && count.Length == 256
    ensures forall v :: 0 <= v < 256 ==> count[v] == Occurrences(row + [kind], v)
  {
    count := new nat[256](_ => 0);
    var x := 0;
    while x != |row|
      invariant x <= |row|
      invariant forall v :: 0 <= v < 256 ==> count[v] == Occurrences(row[..x], v)
    {
      assert row[..x + 1][..x] == row[..x];
      count[row[x]] := count[row[x]] + 1;
      x := x + 1;
    }
    assert row[..x] == row && (row + [kind])[..|row|] == row;
    count[kind] := count[kind] + 1;
  }

  // ---------- choosing ----------

  /** One attempt: the line filtered with this type. */
  method Attempt(scanline: seq<byte>, prev: seq<byte>, bw: nat, kind: nat) returns (row: seq<byte>)
    requires kind <= 4 && 1 <= bw <= |scanline| && (prev == [] || |prev| == |scanline|)
    ensures row == FilterRow(kind, scanline, prev, bw)
  {
    hide FilterRow;
    var scratch := new byte[|scanline|](_ => 0);
    FilterScanline(scratch, 0, scanline, prev, bw, kind);
    row := scratch[..];
  }

  /** The first type with the smallest sum of absolute differences. */
  ghost predicate IsMinSum(best: nat, scanline: seq<byte>, prev: seq<byte>, bw: nat, n: nat)
  {
    && best < n
    && forall t: nat :: t < n ==>
         var b, s := SumOf(best, FilterRow(best, scanline, prev, bw)), SumOf(t, FilterRow(t, scanline, prev, bw));
         b <= s && (t < best ==> b < s)
  }

  method ChooseMinSum(scanline: seq<byte>, prev: seq<byte>, bw: nat) returns (best: byte, row: seq<byte>)
    requires 1 <= bw <= |scanline| && (prev == [] || |prev| == |scanline|)
    ensures IsMinSum(best, scanline, prev, bw, 5) && row == FilterRow(best, scanline, prev, bw)
  {
    hide FilterRow, SumOf;
    best := 0;
    row := Attempt(scanline, prev, bw, 0);
    var smallest := AbsoluteSum(0, row);
    var kind := 1;
    while kind != 5
      invariant 1 <= kind <= 5 && IsMinSum(best, scanline, prev, bw, kind)
      invariant row == FilterRow(best, scanline, prev, bw) && smallest == SumOf(best, row)
    {
      var attempt := Attempt(scanline, prev, bw, kind);
      var sum := AbsoluteSum(kind, attempt);
      if sum < smallest {
        best, smallest, row := kind, sum, attempt;
      }
      kind := kind + 1;
    }
  }

  /** The first type with the largest sum of count * log(count), that is, with the smallest entropy. */
  ghost predicate IsMinEntropy(best: nat, scanline: seq<byte>, prev: seq<byte>, bw: nat, n: nat)
  {
    && best < n <= 256
    && forall t: nat :: t < n ==>
         var b, s := KindEntropy(best, scanline, prev, bw), KindEntropy(t, scanline, prev, bw);
         b >= s && (t < best ==> b > s)
  }

  function KindEntropy(kind: nat, scanline: seq<byte>, prev: seq<byte>, bw: nat): nat
  {
    if kind < 256 then EntropyOf(FilterRow(kind, scanline, prev, bw) + [kind], 256) else 0
  }

  method ChooseEntropy(scanline: seq<byte>, prev: seq<byte>, bw: nat) returns (best: byte, row: seq<byte>)
    requires 1 <= bw <= |scanline| < 0xFFFF_FFFF && (prev == [] || |prev| == |scanline|)
    ensures IsMinEntropy(best, scanline, prev, bw, 5) && row == FilterRow(best, scanline, prev, bw)
  {
    hide FilterRow, EntropyOf;
    best := 0;
    row := Attempt(scanline, prev, bw, 0);
    var bestsum := EntropySum(0, row);
    var kind := 1;
    while kind != 5
      invariant 1 <= kind <= 5 && IsMinEntropy(best, scanline, prev, bw, kind)
      invariant row == FilterRow(best, scanline, prev, bw) && bestsum == KindEntropy(best, scanline, prev, bw)
    {
      var attempt := Attempt(scanline, prev, bw, kind);
      var sum := EntropySum(kind, attempt);
      if sum > bestsum {
        best, bestsum, row := kind, sum, attempt;
      }
      kind := kind + 1;
    }
  }

  /** What a row may have been compressed to: nothing if the settings are refused, else a stream for it. */
  ghost predicate CompressedTo(packed: seq<byte>, row: seq<byte>, settings: CompressSettings)
  {
    if WindowRefused(settings, 0) then Packed(packed, row, settings) else packed == []
  }

  /** Among the types tried so far, the first one with the fewest bytes in `packed`, which holds a stream for
      each filtered row. */
  ghost predicate IsSmallest(best: nat, scanline: seq<byte>, prev: seq<byte>, bw: nat, settings: CompressSettings,
                             packed: seq<seq<byte>>)
  {
    && best < |packed|
    && (forall t :: 0 <= t < |packed| ==> CompressedTo(packed[t], FilterRow(t, scanline, prev, bw), settings))
    && forall t :: 0 <= t < |packed| ==> |packed[best]| <= |packed[t]| && (t < best ==> |packed[best]| < |packed[t]|)
  }

  /** The type whose row was compressed to the fewest bytes; the first type if the settings are refused. */
  method ChooseBruteForce(scanline: seq<byte>, prev: seq<byte>, bw: nat, zlib: CompressSettings)
    returns (best: byte, row: seq<byte>, ghost packed: seq<seq<byte>>)
    requires 1 <= bw <= |scanline| && (prev == [] || |prev| == |scanline|)
    ensures |packed| == 5 && IsSmallest(best, scanline, prev, bw, zlib.(btype := 1), packed)
    ensures best <= 4 && row == FilterRow(best, scanline, prev, bw)
    ensures !WindowRefused(zlib.(btype := 1), 0) ==> best == 0
  {
    hide FilterRow, Packed;
    var settings := zlib.(btype := 1);
    packed := [];
    best, row := 0, [];
    var smallest := 0;
    var kind := 0;
    while kind != 5
      invariant |packed| == kind <= 5
      invariant kind > 0 ==> IsSmallest(best, scanline, prev, bw, settings, packed) && smallest == |packed[best]|
      invariant kind > 0 ==> row == FilterRow(best, scanline, prev, bw)
    {
      var attempt := Attempt(scanline, prev, bw, kind);
      var error, out := ZlibCompress(attempt, settings);
      if kind == 0 || |out| < smallest {
        best, smallest, row := kind, |out|, attempt;
      }
      packed := packed + [out];
      kind := kind + 1;
    }
    assert CompressedTo(packed[0], FilterRow(0, scanline, prev, bw), settings) && |packed[best]| <= |packed[0]|;
  }

  // ---------- filtering an image ----------

  predicate KnownStrategy(strategy: nat)
  {
    strategy <= LFS_PREDEFINED
  }

  /** With paletteZero, palette and low-depth images are not filtered. */
  function UsedStrategy(color: ColorMode, settings: FilterSettings): nat
  {
    if settings.paletteZero && (color.colortype == LCT_PALETTE || color.bitdepth < 8) then LFS_ZERO
    else settings.strategy
  }

  /** The filter type that a strategy gives line y. */
  ghost predicate KindFor(kind: byte, y: nat, scanline: seq<byte>, prev: seq<byte>, bw: nat, strategy: nat, predefined: seq<byte>)
  {
    if strategy <= LFS_FOUR then kind == strategy
    else if strategy == LFS_MINSUM then IsMinSum(kind, scanline, prev, bw, 5)
    else if strategy == LFS_ENTROPY then IsMinEntropy(kind, scanline, prev, bw, 5)
    else if strategy == LFS_BRUTE_FORCE then kind <= 4
    else strategy == LFS_PREDEFINED && y < |predefined| && kind == predefined[y]
  }

  /** A written line: its type, and the filtered bytes when the type is a valid one. */
  ghost predicate FilteredLine(f: seq<byte>, kind: byte, scanline: seq<byte>, prev: seq<byte>, bw: nat)
  {
    && |f| == 1 + |scanline| && f[0] == kind
    && (kind <= 4 ==> f == [kind] + FilterRow(kind, scanline, prev, bw))
  }

  /** Chooses the type for one line and writes the line at o. */
  method WriteLine(out: array<byte>, o: nat, scanline: seq<byte>, prev: seq<byte>, bw: nat, y: nat, strategy: nat,
                   settings: FilterSettings)
    returns (ghost kind: byte, ghost f: seq<byte>)
    requires 1 <= bw <= |scanline| < 0xFFFF_FFFF && (prev == [] || |prev| == |scanline|)
    requires o + 1 + |scanline| <= out.Length && KnownStrategy(strategy)
    requires strategy == LFS_PREDEFINED ==> y < |settings.predefined|
    modifies out
    ensures KindFor(kind, y, scanline, prev, bw, strategy, settings.predefined)
    ensures FilteredLine(f, kind, scanline, prev, bw) && out[..] == Overwrite(old(out[..]), o, f)
  {
    hide FilterRow, IsMinSum, IsMinEntropy;
    ghost var s0 := out[..];
    if strategy <= LFS_FOUR || strategy == LFS_PREDEFINED {
      var t := if strategy <= LFS_FOUR then strategy else settings.predefined[y];
      kind := t;
      out[o] := t;
      FilterScanline(out, o + 1, scanline, prev, bw, t);
      f := out[o..o + 1 + |scanline|];
      DirectLine(s0, out[..], o, t, scanline, prev, bw, f);
    } else {
      var best, row;
      if strategy == LFS_MINSUM {
        best, row := ChooseMinSum(scanline, prev, bw);
      } else if strategy == LFS_ENTROPY {
        best, row := ChooseEntropy(scanline, prev, bw);
      } else {
        ghost var packed;
        best, row, packed := ChooseBruteForce(scanline, prev, bw, settings.zlib);
      }
      kind, f := best, [best] + row;
      out[o] := best;
      CopyRow(out, o + 1, row);
      TypeThenRow(s0, o, best, row);
    }
  }

  lemma TypeThenRow(s0: seq<byte>, o: nat, kind: byte, row: seq<byte>)
    requires o + 1 + |row| <= |s0|
    ensures Overwrite(s0[o := kind], o + 1, row) == Overwrite(s0, o, [kind] + row)
  {
  }

  lemma DirectLine(s0: seq<byte>, s: seq<byte>, o: nat, kind: byte, scanline: seq<byte>, prev: seq<byte>, bw: nat, f: seq<byte>)
    requires o + 1 + |scanline| <= |s0|
    requires s == if kind <= 4 then Overwrite(s0[o := kind], o + 1, FilterRow(kind, scanline, prev, bw)) else s0[o := kind]
    requires f == s[o..o + 1 + |scanline|]
    ensures FilteredLine(f, kind, scanline, prev, bw) && s == Overwrite(s0, o, f)
  {
    hide FilterRow;
    if kind <= 4 {
      TypeThenRow(s0, o, kind, FilterRow(kind, scanline, prev, bw));
    }
  }

  method CopyRow(out: array<byte>, o: nat, row: seq<byte>)
    requires o + |row| <= out.Length
    modifies out
    ensures out[..] == Overwrite(old(out[..]), o, row)
  {
    hide Filling;
    ghost var s0 := out[..];
    FillingNone(s0, o, row);
    var x := 0;
    while x != |row|
      invariant x <= |row| && Filling(out[..], s0, o, row, x)
    {
      Put(out, s0, o, row, x, row[x]);
      x := x + 1;
    }
    FillingDone(out[..], s0, o, row, x);
  }

  // ---------- all lines ----------

  /** The first y lines ls are written as fs. */
  ghost predicate FilteredUpTo(s: seq<byte>, s0: seq<byte>, off: nat, ls: seq<seq<byte>>, kinds: seq<byte>,
                               fs: seq<seq<byte>>, len: nat, bw: nat, y: nat)
  {
    && |kinds| == |fs| == y <= |ls| && LinesOf(ls, len) && LinesOf(fs, len + 1)
    && (forall k :: 0 <= k < y ==> fs[k][0] == kinds[k])
    && ((forall k :: 0 <= k < y ==> kinds[k] <= 4) ==> fs == FilterLines(kinds, ls[..y], bw))
    && |Flat(fs)| == Rows(y, len + 1) && off + Rows(|ls|, len + 1) <= |s0|
    && off + |Flat(fs)| <= |s0| && s == Overwrite(s0, off, Flat(fs))
  }

  lemma NothingFiltered(s: seq<byte>, off: nat, ls: seq<seq<byte>>, len: nat, bw: nat)
    requires LinesOf(ls, len) && off + Rows(|ls|, len + 1) <= |s|
    ensures FilteredUpTo(s, s, off, ls, [], [], len, bw, 0)
  {
    OverwriteNothing(s, off);
  }

  lemma NextFiltered(s: seq<byte>, s0: seq<byte>, off: nat, ls: seq<seq<byte>>, kinds: seq<byte>, fs: seq<seq<byte>>,
                     len: nat, bw: nat, y: nat, kind: byte, f: seq<byte>)
    requires FilteredUpTo(s, s0, off, ls, kinds, fs, len, bw, y) && y < |ls|
    requires FilteredLine(f, kind, ls[y], Last(ls[..y]), bw)
    ensures off + Rows(y, len + 1) + |f| <= |s|
    ensures FilteredUpTo(Overwrite(s, off + Rows(y, len + 1), f), s0, off, ls, kinds + [kind], fs + [f], len, bw, y + 1)
  {
    hide FilterRow, Overwrite;
    RowsMono(y, |ls|, len + 1);
    FlatSnoc(fs, f);
    OverwriteMore(s0, off, Flat(fs), f);
    var kinds', fs', n := kinds + [kind], fs + [f], y + 1;
    assert ls[..n][..y] == ls[..y] && kinds'[..y] == kinds && fs'[..y] == fs;
    if forall k :: 0 <= k < n ==> kinds'[k] <= 4 {
      assert forall k :: 0 <= k < y ==> kinds[k] == kinds'[k];
      assert kinds'[y] <= 4;
    }
  }

  lemma AllFiltered(s: seq<byte>, s0: seq<byte>, off: nat, ls: seq<seq<byte>>, kinds: seq<byte>, fs: seq<seq<byte>>,
                    len: nat, bw: nat)
    requires FilteredUpTo(s, s0, off, ls, kinds, fs, len, bw, |ls|)
    ensures |kinds| == |fs| == |ls| && LinesOf(fs, len + 1)
    ensures forall k :: 0 <= k < |fs| ==> fs[k][0] == kinds[k]
    ensures (forall k :: 0 <= k < |kinds| ==> kinds[k] <= 4) ==> fs == FilterLines(kinds, ls, bw)
    ensures off + |Flat(fs)| <= |s0| && s == Overwrite(s0, off, Flat(fs))
  {
    assert ls[..|ls|] == ls;
  }

  /** Types chosen for the lines of an image. */
  ghost predicate KindsFor(kinds: seq<byte>, ls: seq<seq<byte>>, bw: nat, strategy: nat, predefined: seq<byte>)
  {
    && |kinds| <= |ls|
    && forall y: nat :: y < |kinds| ==> KindFor(kinds[y], y, ls[y], Last(ls[..y]), bw, strategy, predefined)
  }

  lemma KindsSnoc(kinds: seq<byte>, kind: byte, ls: seq<seq<byte>>, bw: nat, strategy: nat, predefined: seq<byte>)
    requires KindsFor(kinds, ls, bw, strategy, predefined) && |kinds| < |ls|
    requires KindFor(kind, |kinds|, ls[|kinds|], Last(ls[..|kinds|]), bw, strategy, predefined)
    ensures KindsFor(kinds + [kind], ls, bw, strategy, predefined)
  {
    hide KindFor;
  }

  /** Line y of the image. */
  lemma LineSlice(inp: seq<byte>, inoff: nat, len: nat, h: nat, y: nat)
    requires inoff + Rows(h, len) <= |inp| && y < h
    ensures inoff + Rows(y, len) + len <= |inp|
    ensures Chop(inp[inoff..inoff + Rows(h, len)], len, h)[y] == inp[inoff + Rows(y, len)..inoff + Rows(y, len) + len]
  {
    hide Rows, Chop;
    RowsMono(y, h, len);
    ChopLine(inp[inoff..inoff + Rows(h, len)], len, h, y);
    PartOfPart(inp, inoff, Rows(h, len), Rows(y, len), len);
  }

  /** What filtering an image writes: for each line the type its strategy gives, and the filtered line. */
  ghost predicate FilterResult(s: seq<byte>, s0: seq<byte>, off: nat, ls: seq<seq<byte>>, kinds: seq<byte>,
                               fs: seq<seq<byte>>, len: nat, bw: nat, strategy: nat, predefined: seq<byte>)
  {
    && |kinds| == |fs| == |ls| && LinesOf(fs, len + 1) && KindsFor(kinds, ls, bw, strategy, predefined)
    && (forall k :: 0 <= k < |fs| ==> fs[k][0] == kinds[k])
    && ((forall k :: 0 <= k < |kinds| ==> kinds[k] <= 4) ==> fs == FilterLines(kinds, ls, bw))
    && off + |Flat(fs)| <= |s0| && s == Overwrite(s0, off, Flat(fs))
  }

  /** Filters line y. */
  method FilterOne(out: array<byte>, outindex: nat, inp: seq<byte>, inindex: nat, len: nat, bw: nat, y: nat, strategy: nat,
                   ghost outoff: nat, ghost inoff: nat, ghost h: nat, settings: FilterSettings, prev: seq<byte>, ghost s0: seq<byte>,
                   ghost ls: seq<seq<byte>>, ghost kinds0: seq<byte>, ghost fs0: seq<seq<byte>>)
    returns (scanline: seq<byte>, ghost kinds: seq<byte>, ghost fs: seq<seq<byte>>)
    requires inoff + Rows(h, len) <= |inp| && ls == Chop(inp[inoff..inoff + Rows(h, len)], len, h) && y < h
    requires 1 <= bw <= len < 0xFFFF_FFFF && KnownStrategy(strategy)
    requires strategy == LFS_PREDEFINED ==> h <= |settings.predefined|
    requires FilteredUpTo(out[..], s0, outoff, ls, kinds0, fs0, len, bw, y)
    requires |kinds0| == y && KindsFor(kinds0, ls, bw, strategy, settings.predefined)
    requires prev == Last(ls[..y]) && (prev == [] || |prev| == len)
    requires outindex == outoff + Rows(y, len + 1) && inindex == inoff + Rows(y, len)
    modifies out
    ensures FilteredUpTo(out[..], s0, outoff, ls, kinds, fs, len, bw, y + 1)
    ensures |kinds| == y + 1 && KindsFor(kinds, ls, bw, strategy, settings.predefined)
    ensures scanline == Last(ls[..y + 1]) && |scanline| == len
  {
    hide FilteredUpTo, Rows, FilterRow, Overwrite, LineBytes, Chop, FilterLines, KindFor, FilteredLine, KindsFor;
    LineSlice(inp, inoff, len, h, y);
    FilteredRoom(out[..], s0, outoff, ls, kinds0, fs0, len, bw, y);
    scanline := inp[inindex..inindex + len];
    ghost var s, kind, f := out[..], 0, [];
    kind, f := WriteLine(out, outindex, scanline, prev, bw, y, strategy, settings);
    NextFiltered(s, s0, outoff, ls, kinds0, fs0, len, bw, y, kind, f);
    KindsSnoc(kinds0, kind, ls, bw, strategy, settings.predefined);
    kinds, fs := kinds0 + [kind], fs0 + [f];
  }

  /** Filters all lines with a known strategy. */
  method FilterAll(out: array<byte>, outoff: nat, inp: seq<byte>, inoff: nat, len: nat, bw: nat, h: nat, strategy: nat,
                   settings: FilterSettings)
    returns (ghost kinds: seq<byte>, ghost fs: seq<seq<byte>>)
    requires (h > 0 ==> 1 <= bw <= len) && len < 0xFFFF_FFFF && KnownStrategy(strategy)
    requires inoff + Rows(h, len) <= |inp| && outoff + Rows(h, len + 1) <= out.Length
    requires strategy == LFS_PREDEFINED ==> h <= |settings.predefined|
    modifies out
    ensures FilterResult(out[..], old(out[..]), outoff, Chop(inp[inoff..inoff + Rows(h, len)], len, h), kinds, fs,
                         len, bw, strategy, settings.predefined)
  {
    hide FilteredUpTo, Rows, Overwrite, Chop, FilterLines, KindFor, FilteredLine, KindsFor, KnownStrategy;
    kinds, fs := [], [];
    ghost var s0, ls := out[..], Chop(inp[inoff..inoff + Rows(h, len)], len, h);
    NothingFiltered(s0, outoff, ls, len, bw);
    NoKinds(ls, bw, strategy, settings.predefined);
    var prev: seq<byte> := [];
    var y := 0;
    while y != h
      invariant y <= h && FilteredUpTo(out[..], s0, outoff, ls, kinds, fs, len, bw, y)
      invariant |kinds| == y && KindsFor(kinds, ls, bw, strategy, settings.predefined)
      invariant prev == Last(ls[..y]) && (prev == [] || |prev| == len)
    {
      RowsIsProduct(y, len);
      RowsIsProduct(y, len + 1);
      var outindex, inindex := outoff + (1 + len) * y, inoff + len * y;
      prev, kinds, fs := FilterOne(out, outindex, inp, inindex, len, bw, y, strategy, outoff, inoff, h, settings, prev,
                                   s0, ls, kinds, fs);
      y := y + 1;
    }
    AllFiltered(out[..], s0, outoff, ls, kinds, fs, len, bw);
  }

  /** Filters all lines of a (reduced) image. */
  method Filter(out: array<byte>, outoff: nat, inp: seq<byte>, inoff: nat, w: nat, h: nat, color: ColorMode,
                settings: FilterSettings)
    returns (error: nat, ghost kinds: seq<byte>, ghost fs: seq<seq<byte>>)
    requires (w == 0 ==> h == 0) && LineBytes(w, color.Bpp()) < 0xFFFF_FFFF
    requires inoff + Rows(h, LineBytes(w, color.Bpp())) <= |inp|
    requires outoff + Rows(h, LineBytes(w, color.Bpp()) + 1) <= out.Length
    requires UsedStrategy(color, settings) == LFS_PREDEFINED ==> h <= |settings.predefined|
    modifies out
    ensures error == if color.Bpp() == 0 then 31 else if KnownStrategy(UsedStrategy(color, settings)) then 0 else 88
    ensures error == 0 ==>
              var len := LineBytes(w, color.Bpp());
              FilterResult(out[..], old(out[..]), outoff, Chop(inp[inoff..inoff + Rows(h, len)], len, h), kinds, fs,
                           len, ByteWidth(color.Bpp()), UsedStrategy(color, settings), settings.predefined)
  {
    hide FilterResult, Rows, LineBytes, Chop;
    kinds, fs := [], [];
    var bpp := color.Bpp();
    var size := RawSizeIdat(w, 1, bpp);
    var len, bw := size - 1, (bpp + 7) / 8;
    var strategy := UsedStrategy(color, settings);
    if bpp == 0 {
      return 31, kinds, fs;
    }
    if !KnownStrategy(strategy) {
      return 88, kinds, fs;
    }
    if w > 0 {
      LineHoldsPixel(w, bpp);
    }
    error := 0;
    kinds, fs := FilterAll(out, outoff, inp, inoff, len, bw, h, strategy, settings);
  }

  lemma NoKinds(ls: seq<seq<byte>>, bw: nat, strategy: nat, predefined: seq<byte>)
    ensures KindsFor([], ls, bw, strategy, predefined)
  {
  }

  lemma FilteredRoom(s: seq<byte>, s0: seq<byte>, off: nat, ls: seq<seq<byte>>, kinds: seq<byte>, fs: seq<seq<byte>>,
                     len: nat, bw: nat, y: nat)
    requires FilteredUpTo(s, s0, off, ls, kinds, fs, len, bw, y) && y < |ls|
    ensures off + Rows(y, len + 1) + 1 + len <= |s|
  {
    RowsMono(y, |ls|, len + 1);
  }

  /** What a filtered image is decoded to: the lines themselves when all types are valid, and an error
      otherwise. */
  lemma FilterResultDecodes(s: seq<byte>, s0: seq<byte>, off: nat, ls: seq<seq<byte>>, kinds: seq<byte>, fs: seq<seq<byte>>,
                            len: nat, bw: nat, strategy: nat, predefined: seq<byte>)
    requires FilterResult(s, s0, off, ls, kinds, fs, len, bw, strategy, predefined) && LinesOf(ls, len) && bw > 0
    ensures off + Rows(|ls|, len + 1) <= |s|
    ensures DecodeLines(s, off, len, |ls|, bw)
         == if forall y :: 0 <= y < |kinds| ==> kinds[y] <= 4 then Lines(ls) else BadFilter
  {
    hide Rows, FilterRow, FilterLines, KindsFor, Overwrite, UnfilterLines, Flat;
    FlatSize(fs, len + 1);
    OverwriteRead(s0, off, Flat(fs));
    DecodeFlat(s, off, fs, len, bw);
    NonEmptyLines(fs, len);
    BadFilterIff(fs, bw);
    if forall y :: 0 <= y < |kinds| ==> kinds[y] <= 4 {
      LinesRoundTrip(kinds, ls, bw, len);
    }
  }

  lemma DecodeFlat(s: seq<byte>, off: nat, fs: seq<seq<byte>>, len: nat, bw: nat)
    requires LinesOf(fs, len + 1) && bw > 0 && off + |Flat(fs)| <= |s| && s[off..off + |Flat(fs)|] == Flat(fs)
    ensures |Flat(fs)| == Rows(|fs|, len + 1)
    ensures (forall k :: 0 <= k < |fs| ==> |fs[k]| > 0) && DecodeLines(s, off, len, |fs|, bw) == UnfilterLines(fs, bw)
  {
    hide Rows, UnfilterLines, Flat, Chop;
    FlatSize(fs, len + 1);
    NonEmptyLines(fs, len);
    ChopFlat(fs, len + 1, [], |fs|);
    assert Flat(fs) + [] == Flat(fs) && fs[..|fs|] == fs;
  }
}
