/**
 The five scanline filters (section 9.2 of the PNG Specification). `Predict` is the standard's definition,
 with bytes outside the image read as zero; the loops, their special cases for the first pixel and
 the first line, and the unrolled Paeth loops are proved against it.
 */
module PngFilters {
  import opened Bits
  import opened PngLines

  function Abs(x: int): nat
  {
    if x < 0 then -x else x
  }

  /** Of left, up and upper left, the one nearest to left + up - upper left; ties in this order. */
  function Paeth(a: byte, b: byte, c: byte): (r: byte)
  {
    var p := a as int + b - c;
    if Abs(p - a) <= Abs(p - b) && Abs(p - a) <= Abs(p - c) then a
    else if Abs(p - b) <= Abs(p - c) then b
    else c
  }

  /** The code compares other expressions, in another order. */
  method PaethPredictor(a0: byte, b: byte, c: byte) returns (r: byte)
    ensures r == Paeth(a0, b, c)
  {
    var a := a0;
    var pa := Abs(b as int - c);
    var pb := Abs(a as int - c);
    var pc := Abs(a as int + b - c - c);
    if pb < pa {
      a := b;
      pa := pb;
    }
    r := if pc < pa then c else a;
  }

  /** paethPredictor(0, b, 0) is always b, and paethPredictor(a, 0, 0) is always a. */
  lemma PaethEdges(x: byte)
    ensures Paeth(0, x, 0) == x && Paeth(x, 0, 0) == x
  {
  }

  // Arithmetic on unsigned chars, which wraps at 256.

  function Plus(x: byte, y: byte): byte
  {
    (x as int + y) % 256
  }

  function Minus(x: byte, y: byte): byte
  {
    (x as int + 256 - y) % 256
  }

  /** (x + y) >> 1, computed without wrapping */
  function Mean(x: byte, y: byte): byte
  {
    (x as int + y) / 2
  }

  /** What a filter type predicts from the bytes to the left, above, and above to the left. */
  function Predict(kind: nat, left: byte, up: byte, upleft: byte): byte
  {
    if kind == 1 then left
    else if kind == 2 then up
    else if kind == 3 then Mean(left, up)
    else if kind == 4 then Paeth(left, up, upleft)
    else 0
  }

  /** The byte one pixel to the left; zero outside the line. No line at all reads as zeros. */
  function Left(line: seq<byte>, i: nat, bw: nat): byte
  {
    if i < bw then 0 else ByteAt(line, i - bw)
  }

  // ---------- whole lines ----------

  function FilterByte(kind: nat, line: seq<byte>, prev: seq<byte>, bw: nat, i: nat): byte
    requires i < |line|
  {
    Minus(line[i], Predict(kind, Left(line, i, bw), ByteAt(prev, i), Left(prev, i, bw)))
  }

  function FilterRow(kind: nat, line: seq<byte>, prev: seq<byte>, bw: nat): (row: seq<byte>)
    ensures |row| == |line| && forall i :: 0 <= i < |row| ==> row[i] == FilterByte(kind, line, prev, bw, i)
  {
    seq(|line|, i requires 0 <= i < |line| => FilterByte(kind, line, prev, bw, i))
  }

  /** Undoing a filter, byte after byte: a byte may depend on those already undone. */
  function UnfilterRow(kind: nat, scan: seq<byte>, prev: seq<byte>, bw: nat): (line: seq<byte>)
    requires bw > 0
    ensures |line| == |scan|
  {
    if |scan| == 0 then []
    else
      var n := |scan| - 1;
      var before := UnfilterRow(kind, scan[..n], prev, bw);
      before + [Plus(scan[n], Predict(kind, Left(before, n, bw), ByteAt(prev, n), Left(prev, n, bw)))]
  }

  lemma AddSubtract(x: byte, p: byte)
    ensures Plus(Minus(x, p), p) == x && Minus(Plus(x, p), p) == x
  {
  }

  lemma LeftPrefix(line: seq<byte>, i: nat, n: nat, bw: nat)
    requires bw > 0 && i <= n <= |line|
    ensures Left(line[..n], i, bw) == Left(line, i, bw)
  {
  }

  /** Filtering a prefix. */
  lemma FilterPrefix(kind: nat, line: seq<byte>, prev: seq<byte>, bw: nat, n: nat)
    requires bw > 0 && n <= |line|
    ensures FilterRow(kind, line, prev, bw)[..n] == FilterRow(kind, line[..n], prev, bw)
  {
    forall i | 0 <= i < n
      ensures FilterByte(kind, line[..n], prev, bw, i) == FilterByte(kind, line, prev, bw, i)
    {
      LeftPrefix(line, i, n, bw);
    }
  }

  /** Unfiltering undoes filtering, for every filter type and every pair of lines. */
  lemma {:induction false} UnfilterFilter(kind: nat, line: seq<byte>, prev: seq<byte>, bw: nat)
    requires bw > 0
    ensures UnfilterRow(kind, FilterRow(kind, line, prev, bw), prev, bw) == line
    decreases |line|
  {
    hide Predict, Left, Plus, Minus;
    if |line| > 0 {
      var n := |line| - 1;
      FilterPrefix(kind, line, prev, bw, n);
      UnfilterFilter(kind, line[..n], prev, bw);
      LeftPrefix(line, n, n, bw);
      AddSubtract(line[n], Predict(kind, Left(line, n, bw), ByteAt(prev, n), Left(prev, n, bw)));
      assert line == line[..n] + [line[n]];
    }
  }

  /** Every unfiltered byte, as the standard states it. */
  lemma {:induction false} UnfilterAt(kind: nat, scan: seq<byte>, prev: seq<byte>, bw: nat, i: nat)
    requires bw > 0 && i < |scan|
    ensures var line := UnfilterRow(kind, scan, prev, bw);
            line[i] == Plus(scan[i], Predict(kind, Left(line, i, bw), ByteAt(prev, i), Left(prev, i, bw)))
  {
    hide Predict, Left, Plus, Minus;
    var n := |scan| - 1;
    var line := UnfilterRow(kind, scan, prev, bw);
    assert line[..n] == UnfilterRow(kind, scan[..n], prev, bw);
    LeftPrefix(line, i, n, bw);
    if i < n {
      UnfilterAt(kind, scan[..n], prev, bw, i);
    }
  }

  /** Filtering undoes unfiltering: no two filtered lines stand for the same line. */
  lemma FilterUnfilter(kind: nat, scan: seq<byte>, prev: seq<byte>, bw: nat)
    requires bw > 0
    ensures FilterRow(kind, UnfilterRow(kind, scan, prev, bw), prev, bw) == scan
  {
    hide Predict, Left, Plus, Minus;
    var line := UnfilterRow(kind, scan, prev, bw);
    forall i | 0 <= i < |scan|
      ensures FilterByte(kind, line, prev, bw, i) == scan[i]
    {
      UnfilterAt(kind, scan, prev, bw, i);
      AddSubtract(scan[i], Predict(kind, Left(line, i, bw), ByteAt(prev, i), Left(prev, i, bw)));
    }
  }

  // ---------- what the standard says of a line ----------

  /** x stands as close to left + up - upper left as any of the three, and comes before those as close. */
  predicate Nearest(x: int, a: int, b: int, c: int)
  {
    var p := a + b - c;
    || (x == a && Abs(p - a) <= Abs(p - b) && Abs(p - a) <= Abs(p - c))
    || (x == b && Abs(p - b) < Abs(p - a) && Abs(p - b) <= Abs(p - c))
    || (x == c && Abs(p - c) < Abs(p - a) && Abs(p - c) < Abs(p - b))
  }

  /** What a byte and its filtered byte differ by, in whole numbers, from the bytes to the left, above, and above
      to the left. */
  predicate Predicted(kind: nat, d: int, a: int, b: int, c: int)
  {
    && 0 <= d < 256
    && (kind == 0 ==> d == 0)
    && (kind == 1 ==> d == a)
    && (kind == 2 ==> d == b)
    && (kind == 3 ==> 2 * d == a + b || 2 * d + 1 == a + b)
    && (kind == 4 ==> Nearest(d, a, b, c))
  }

  /** Byte i of a line and of its filtered form; bytes outside the image count as zero. */
  predicate StandsAt(kind: nat, line: seq<byte>, scan: seq<byte>, prev: seq<byte>, bw: nat, i: nat)
    requires i < |line| == |scan| && (prev == [] || |prev| == |line|)
  {
    Predicted(kind, (line[i] as int - scan[i]) % 256,
              if i < bw then 0 else line[i - bw], if prev == [] then 0 else prev[i],
              if i < bw || prev == [] then 0 else prev[i - bw])
  }

  ghost predicate Stands(kind: nat, line: seq<byte>, scan: seq<byte>, prev: seq<byte>, bw: nat)
  {
    && |line| == |scan| && (prev == [] || |prev| == |line|)
    && forall i :: 0 <= i < |line| ==> StandsAt(kind, line, scan, prev, bw, i)
  }

  lemma PredictIs(kind: nat, a: byte, b: byte, c: byte)
    requires kind <= 4
    ensures Predicted(kind, Predict(kind, a, b, c), a, b, c)
  {
  }

  lemma PlusDifference(x: byte, p: byte)
    ensures (Plus(x, p) as int - x) % 256 == p && (x as int - Minus(x, p)) % 256 == p
  {
  }

  lemma Neighbours(line: seq<byte>, prev: seq<byte>, i: nat, bw: nat)
    requires i < |line| && (prev == [] || |prev| == |line|) && bw > 0
    ensures Left(line, i, bw) == if i < bw then 0 else line[i - bw]
    ensures ByteAt(prev, i) == if prev == [] then 0 else prev[i]
    ensures Left(prev, i, bw) == if i < bw || prev == [] then 0 else prev[i - bw]
  {
  }

  lemma UnfilteredStands(kind: nat, scan: seq<byte>, prev: seq<byte>, bw: nat)
    requires kind <= 4 && bw > 0 && (prev == [] || |prev| == |scan|)
    ensures Stands(kind, UnfilterRow(kind, scan, prev, bw), scan, prev, bw)
  {
    hide Predict, Left, Plus, Minus, Predicted, UnfilterRow;
    var line := UnfilterRow(kind, scan, prev, bw);
    forall i | 0 <= i < |line|
      ensures StandsAt(kind, line, scan, prev, bw, i)
    {
      var a, b, c := Left(line, i, bw), ByteAt(prev, i), Left(prev, i, bw);
      UnfilterAt(kind, scan, prev, bw, i);
      Neighbours(line, prev, i, bw);
      PlusDifference(scan[i], Predict(kind, a, b, c));
      PredictIs(kind, a, b, c);
    }
  }

  lemma FilteredStands(kind: nat, line: seq<byte>, prev: seq<byte>, bw: nat)
    requires kind <= 4 && bw > 0 && (prev == [] || |prev| == |line|)
    ensures Stands(kind, line, FilterRow(kind, line, prev, bw), prev, bw)
  {
    hide UnfilterRow, FilterRow, Stands;
    UnfilteredStands(kind, FilterRow(kind, line, prev, bw), prev, bw);
    UnfilterFilter(kind, line, prev, bw);
  }

  /** A filtered line stands for one line only: two lines that meet these conditions are equal. */
  lemma {:induction false} StandsForOne(kind: nat, line: seq<byte>, other: seq<byte>, scan: seq<byte>, prev: seq<byte>, bw: nat, n: nat)
    requires kind <= 4 && bw > 0 && Stands(kind, line, scan, prev, bw) && Stands(kind, other, scan, prev, bw)
    requires n <= |scan|
    ensures line[..n] == other[..n]
  {
    hide Nearest;
    if n > 0 {
      StandsForOne(kind, line, other, scan, prev, bw, n - 1);
      var i := n - 1;
      if i >= bw {
        assert line[i - bw] == line[..i][i - bw] == other[..i][i - bw] == other[i - bw];
      }
      assert StandsAt(kind, line, scan, prev, bw, i) && StandsAt(kind, other, scan, prev, bw, i);
      var a: int, b: int, c: int := if i < bw then 0 else line[i - bw], if prev == [] then 0 else prev[i],
        if i < bw || prev == [] then 0 else prev[i - bw];
      OnePrediction(kind, (line[i] as int - scan[i]) % 256, (other[i] as int - scan[i]) % 256, a, b, c);
      assert line[..n] == line[..i] + [line[i]] && other[..n] == other[..i] + [other[i]];
    }
  }

  lemma OnePrediction(kind: nat, d: int, e: int, a: int, b: int, c: int)
    requires kind <= 4 && Predicted(kind, d, a, b, c) && Predicted(kind, e, a, b, c)
    ensures d == e
  {
  }

  // ---------- several lines ----------

  function Last(ls: seq<seq<byte>>): seq<byte>
  {
    if |ls| == 0 then [] else ls[|ls| - 1]
  }

  /** Each line behind its filter type, predicted from the unfiltered line above. */
  function FilterLines(kinds: seq<byte>, ls: seq<seq<byte>>, bw: nat): (fs: seq<seq<byte>>)
    requires |kinds| == |ls|
    ensures |fs| == |ls|
  {
    if |ls| == 0 then []
    else
      var n := |ls| - 1;
      FilterLines(kinds[..n], ls[..n], bw) + [[kinds[n]] + FilterRow(kinds[n], ls[n], Last(ls[..n]), bw)]
  }

  datatype Lines = Lines(ls: seq<seq<byte>>) | BadFilter

  function UnfilterLines(fs: seq<seq<byte>>, bw: nat): (r: Lines)
    requires bw > 0 && forall y :: 0 <= y < |fs| ==> |fs[y]| > 0
    ensures r.Lines? ==> |r.ls| == |fs|
  {
    if |fs| == 0 then Lines([])
    else
      var n := |fs| - 1;
      var before := UnfilterLines(fs[..n], bw);
      if before.BadFilter? || fs[n][0] > 4 then BadFilter
      else Lines(before.ls + [UnfilterRow(fs[n][0], fs[n][1..], Last(before.ls), bw)])
  }

  lemma {:induction false} FilterLinesSize(kinds: seq<byte>, ls: seq<seq<byte>>, bw: nat, len: nat)
    requires |kinds| == |ls| && LinesOf(ls, len)
    ensures LinesOf(FilterLines(kinds, ls, bw), len + 1)
  {
    if |ls| > 0 {
      var n := |ls| - 1;
      FilterLinesSize(kinds[..n], ls[..n], bw, len);
    }
  }

  lemma {:induction false} UnfilterLinesSize(fs: seq<seq<byte>>, bw: nat, len: nat)
    requires bw > 0 && LinesOf(fs, len + 1) && UnfilterLines(fs, bw).Lines?
    ensures LinesOf(UnfilterLines(fs, bw).ls, len)
  {
    if |fs| > 0 {
      UnfilterLinesSize(fs[..|fs| - 1], bw, len);
    }
  }

  /** Unfiltering gives the lines back, whichever valid type was chosen for each. */
  lemma {:induction false} LinesRoundTrip(kinds: seq<byte>, ls: seq<seq<byte>>, bw: nat, len: nat)
    requires bw > 0 && |kinds| == |ls| && LinesOf(ls, len)
    requires forall y :: 0 <= y < |kinds| ==> kinds[y] <= 4
    ensures LinesOf(FilterLines(kinds, ls, bw), len + 1)
    ensures UnfilterLines(FilterLines(kinds, ls, bw), bw) == Lines(ls)
    decreases |ls|
  {
    hide FilterRow, UnfilterRow, FilterLines, UnfilterLines;
    FilterLinesSize(kinds, ls, bw, len);
    LastLines(kinds, ls, bw);
    if |ls| > 0 {
      var n := |ls| - 1;
      LinesRoundTrip(kinds[..n], ls[..n], bw, len);
      UnfilterFilter(kinds[n], ls[n], Last(ls[..n]), bw);
      var front, row := FilterLines(kinds[..n], ls[..n], bw), FilterRow(kinds[n], ls[n], Last(ls[..n]), bw);
      NextUnfilterLine(front, ls[..n], kinds[n], row, bw);
      assert ls == ls[..n] + [ls[n]];
    }
  }

  lemma LastLines(kinds: seq<byte>, ls: seq<seq<byte>>, bw: nat)
    requires |kinds| == |ls| && bw > 0
    ensures |ls| == 0 ==> UnfilterLines(FilterLines(kinds, ls, bw), bw) == Lines(ls)
    ensures |ls| > 0 ==>
              var n := |ls| - 1;
              FilterLines(kinds, ls, bw)
              == FilterLines(kinds[..n], ls[..n], bw) + [[kinds[n]] + FilterRow(kinds[n], ls[n], Last(ls[..n]), bw)]
  {
    hide FilterRow, UnfilterRow;
  }

  /** Unfiltering one more line. */
  lemma NextUnfilterLine(front: seq<seq<byte>>, before: seq<seq<byte>>, kind: byte, row: seq<byte>, bw: nat)
    requires bw > 0 && kind <= 4 && (forall y :: 0 <= y < |front| ==> |front[y]| > 0)
    requires UnfilterLines(front, bw) == Lines(before)
    ensures UnfilterLines(front + [[kind] + row], bw) == Lines(before + [UnfilterRow(kind, row, Last(before), bw)])
  {
    hide UnfilterRow;
    var fs := front + [[kind] + row];
    assert fs[..|front|] == front && ([kind] + row)[1..] == row;
  }

  /** An invalid type anywhere is an error, and nothing else is. */
  lemma {:induction false} BadFilterIff(fs: seq<seq<byte>>, bw: nat)
    requires bw > 0 && forall y :: 0 <= y < |fs| ==> |fs[y]| > 0
    ensures UnfilterLines(fs, bw).BadFilter? <==> exists y :: 0 <= y < |fs| && fs[y][0] > 4
  {
    if |fs| > 0 {
      BadFilterIff(fs[..|fs| - 1], bw);
    }
  }
}
