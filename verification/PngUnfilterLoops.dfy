/**
 The decoder's inverse filters. They run in place: the output line may lie in the same buffer as
 the filtered line, at or before it, and the line above is read from the output. The Paeth filter
 has loops that undo 4, 3 or 2 bytes at once when a pixel is at least that wide.
 */
module PngUnfilterLoops {
  import opened Bits
  import opened PngLines
  import opened PngFilters
  import opened PngFilterLoops

  /** One line: where the output starts and what it was; the input, and where; the line above, and
      where (p < 0 for none); the result. */
  datatype Job = Job(s0: seq<byte>, o: nat, row: seq<byte>, i0: nat, scan: seq<byte>, p: int, prev: seq<byte>)

  /** The first i bytes are undone; the input from i on and the line above are still in place. */
  ghost predicate Undone(j: Job, s: seq<byte>, t: seq<byte>, i: nat)
  {
    && Filling(s, j.s0, j.o, j.row, i) && |j.row| == |j.scan|
    && j.i0 + |j.scan| <= |t| && (forall k :: j.i0 + i <= k < j.i0 + |j.scan| ==> t[k] == j.scan[k - j.i0])
    && if j.p < 0 then j.prev == []
       else |j.prev| == |j.row| && j.p + |j.prev| <= j.o
            && forall k :: j.p <= k < j.p + |j.prev| ==> j.s0[k] == j.prev[k - j.p]
  }

  /** What can be read before byte i is written. */
  lemma Readable(j: Job, s: seq<byte>, t: seq<byte>, i: nat)
    requires Undone(j, s, t, i)
    ensures j.o + |j.row| <= |s| && |j.row| == |j.scan| && j.i0 + |j.scan| <= |t| && i <= |j.row|
    ensures forall k :: j.i0 + i <= k < j.i0 + |j.scan| ==> t[k] == j.scan[k - j.i0]
    ensures forall k :: j.o <= k < j.o + i ==> s[k] == j.row[k - j.o]
    ensures j.p < 0 ==> j.prev == []
    ensures j.p >= 0 ==> |j.prev| == |j.row| && j.p + |j.prev| <= j.o
                         && forall k :: j.p <= k < j.p + |j.prev| ==> s[k] == j.prev[k - j.p]
  {
  }

  lemma UndoneNext(j: Job, s: seq<byte>, t: seq<byte>, i: nat, b: byte, same: bool)
    requires Undone(j, s, t, i) && i < |j.row| && b == j.row[i]
    requires same ==> s == t && j.o <= j.i0
    ensures j.o + i < |s|
    ensures Undone(j, s[j.o + i := b], if same then s[j.o + i := b] else t, i + 1)
  {
    FillingNext(s, j.s0, j.o, j.row, i, b);
  }

  /** Writes one byte of the line. */
  method Put(out: array<byte>, inp: array<byte>, o: nat, i: nat, b: byte, ghost j: Job)
    requires Undone(j, out[..], inp[..], i) && j.o == o && i < |j.row| && b == j.row[i]
    requires out == inp ==> o <= j.i0
    modifies out
    ensures Undone(j, out[..], inp[..], i + 1)
  {
    hide Undone;
    UndoneNext(j, out[..], inp[..], i, b, out == inp);
    out[o + i] := b;
  }

  // ---------- what the loops compute ----------

  function UnSubAt(scan: seq<byte>, line: seq<byte>, bw: nat, i: nat): byte
    requires |scan| == |line| && i < |line|
  {
    if i < bw then scan[i] else Plus(scan[i], line[i - bw])
  }

  function UnUpAt(scan: seq<byte>, prev: seq<byte>, i: nat): byte
    requires i < |scan| && (prev == [] || |prev| == |scan|)
  {
    if prev == [] then scan[i] else Plus(scan[i], prev[i])
  }

  function UnAverageAt(scan: seq<byte>, line: seq<byte>, prev: seq<byte>, bw: nat, i: nat): byte
    requires |scan| == |line| && i < |line| && (prev == [] || |prev| == |line|)
  {
    if prev == [] then if i < bw then scan[i] else Plus(scan[i], line[i - bw] / 2)
    else if i < bw then Plus(scan[i], prev[i] / 2)
    else Plus(scan[i], Mean(line[i - bw], prev[i]))
  }

  function UnPaethAt(scan: seq<byte>, line: seq<byte>, prev: seq<byte>, bw: nat, i: nat): byte
    requires |scan| == |line| && i < |line| && (prev == [] || |prev| == |line|)
  {
    if prev == [] then if i < bw then scan[i] else Plus(scan[i], line[i - bw])
    else if i < bw then Plus(scan[i], prev[i])
    else Plus(scan[i], Paeth(line[i - bw], prev[i], prev[i - bw]))
  }

  lemma UnfilterBytes(kind: nat, scan: seq<byte>, prev: seq<byte>, bw: nat, i: nat)
    requires bw > 0 && i < |scan| && (prev == [] || |prev| == |scan|)
    ensures var line := UnfilterRow(kind, scan, prev, bw);
            && (kind == 0 ==> line[i] == scan[i])
            && (kind == 1 ==> line[i] == UnSubAt(scan, line, bw, i))
            && (kind == 2 ==> line[i] == UnUpAt(scan, prev, i))
            && (kind == 3 ==> line[i] == UnAverageAt(scan, line, prev, bw, i))
            && (kind == 4 ==> line[i] == UnPaethAt(scan, line, prev, bw, i))
  {
    hide UnfilterRow, Paeth;
    UnfilterAt(kind, scan, prev, bw, i);
    PaethEdges(ByteAt(prev, i));
    PaethEdges(Left(UnfilterRow(kind, scan, prev, bw), i, bw));
  }

  // ---------- the loops ----------

  /** Takes bytes over as they are. */
  method TakeBytes(out: array<byte>, inp: array<byte>, o: nat, i0: nat, from: nat, to: nat, ghost j: Job)
    requires Undone(j, out[..], inp[..], from) && j.o == o && j.i0 == i0 && (out == inp ==> o <= i0)
    requires from <= to <= |j.row| == |j.scan|
    requires forall i :: from <= i < to ==> j.row[i] == j.scan[i]
    modifies out
    ensures Undone(j, out[..], inp[..], to)
  {
    hide Undone;
    var i := from;
    while i != to
      invariant from <= i <= to && Undone(j, out[..], inp[..], i)
    {
      Readable(j, out[..], inp[..], i);
      Put(out, inp, o, i, inp[i0 + i], j);
      i := i + 1;
    }
  }

  /** The line to the left, from index bw on. */
  method AddLeft(out: array<byte>, inp: array<byte>, o: nat, i0: nat, bw: nat, length: nat, ghost j: Job)
    requires Undone(j, out[..], inp[..], 0) && j.o == o && j.i0 == i0 && (out == inp ==> o <= i0)
    requires |j.row| == |j.scan| == length && 1 <= bw <= length
    requires forall i :: 0 <= i < length ==> j.row[i] == UnSubAt(j.scan, j.row, bw, i)
    modifies out
    ensures Undone(j, out[..], inp[..], length)
  {
    hide Undone, Plus;
    TakeBytes(out, inp, o, i0, 0, bw, j);
    var i := bw;
    while i < length
      invariant bw <= i <= length && Undone(j, out[..], inp[..], i)
    {
      Readable(j, out[..], inp[..], i);
      Put(out, inp, o, i, Plus(inp[i0 + i], out[o + i - bw]), j);
      i := i + 1;
    }
  }

  method UndoUp(out: array<byte>, inp: array<byte>, o: nat, i0: nat, p: int, length: nat, ghost j: Job)
    requires Undone(j, out[..], inp[..], 0) && j.o == o && j.i0 == i0 && j.p == p && (out == inp ==> o <= i0)
    requires |j.row| == |j.scan| == length && (j.prev == [] || |j.prev| == length)
    requires forall i :: 0 <= i < length ==> j.row[i] == UnUpAt(j.scan, j.prev, i)
    requires length > 0
    modifies out
    ensures Undone(j, out[..], inp[..], length)
  {
    hide Undone, Plus;
    Readable(j, out[..], inp[..], 0);
    if p >= 0 {
      var i := 0;
      while i != length
        invariant i <= length && Undone(j, out[..], inp[..], i)
      {
        Readable(j, out[..], inp[..], i);
        Put(out, inp, o, i, Plus(inp[i0 + i], out[p + i]), j);
        i := i + 1;
      }
    } else {
      TakeBytes(out, inp, o, i0, 0, length, j);
    }
  }

  /** The bytes of an Average line, below another line or as the first one. */
  lemma AverageCases(j: Job, bw: nat, i: nat)
    requires |j.row| == |j.scan| && i < |j.row| && (j.prev == [] || |j.prev| == |j.row|)
    requires j.row[i] == UnAverageAt(j.scan, j.row, j.prev, bw, i)
    ensures j.prev == [] ==> j.row[i] == if i < bw then j.scan[i] else Plus(j.scan[i], j.row[i - bw] / 2)
    ensures j.prev != [] ==> j.row[i] == if i < bw then Plus(j.scan[i], j.prev[i] / 2)
                                         else Plus(j.scan[i], Mean(j.row[i - bw], j.prev[i]))
  {
  }

  /** What the Average loops assume of their line. */
  ghost predicate AverageJob(j: Job, bw: nat)
  {
    && |j.row| == |j.scan| && 1 <= bw <= |j.row| && (j.prev == [] || |j.prev| == |j.row|)
    && forall i :: 0 <= i < |j.row| ==> j.row[i] == UnAverageAt(j.scan, j.row, j.prev, bw, i)
  }

  lemma AverageByteOf(j: Job, bw: nat, i: nat)
    requires AverageJob(j, bw) && i < |j.row|
    ensures |j.row| == |j.scan| && (j.prev == [] || |j.prev| == |j.row|)
    ensures j.row[i] == UnAverageAt(j.scan, j.row, j.prev, bw, i)
  {
  }

  method AverageBelow(out: array<byte>, inp: array<byte>, o: nat, i0: nat, p: nat, bw: nat, length: nat, ghost j: Job)
    requires Undone(j, out[..], inp[..], 0) && j.o == o && j.i0 == i0 && j.p == p && (out == inp ==> o <= i0)
    requires AverageJob(j, bw) && |j.row| == |j.scan| == |j.prev| == length && 1 <= bw <= length
    modifies out
    ensures Undone(j, out[..], inp[..], length)
  {
    hide Undone, Plus, Mean, AverageJob, UnAverageAt;
    var i := 0;
    while i != bw
      invariant i <= bw && Undone(j, out[..], inp[..], i)
    {
      Readable(j, out[..], inp[..], i);
      AverageByteOf(j, bw, i);
      AverageCases(j, bw, i);
      Put(out, inp, o, i, Plus(inp[i0 + i], out[p + i] / 2), j);
      i := i + 1;
    }
    while i < length
      invariant bw <= i <= length && Undone(j, out[..], inp[..], i)
    {
      Readable(j, out[..], inp[..], i);
      AverageByteOf(j, bw, i);
      AverageCases(j, bw, i);
      Put(out, inp, o, i, Plus(inp[i0 + i], Mean(out[o + i - bw], out[p + i])), j);
      i := i + 1;
    }
  }

  method AverageFirst(out: array<byte>, inp: array<byte>, o: nat, i0: nat, bw: nat, length: nat, ghost j: Job)
    requires Undone(j, out[..], inp[..], 0) && j.o == o && j.i0 == i0 && j.prev == [] && (out == inp ==> o <= i0)
    requires AverageJob(j, bw) && |j.row| == |j.scan| == length && 1 <= bw <= length
    modifies out
    ensures Undone(j, out[..], inp[..], length)
  {
    hide Undone, Plus, AverageJob, UnAverageAt;
    forall i | 0 <= i < bw
      ensures j.row[i] == j.scan[i]
    {
      AverageByteOf(j, bw, i);
      AverageCases(j, bw, i);
    }
    TakeBytes(out, inp, o, i0, 0, bw, j);
    var i := bw;
    while i < length
      invariant bw <= i <= length && Undone(j, out[..], inp[..], i)
    {
      Readable(j, out[..], inp[..], i);
      AverageByteOf(j, bw, i);
      AverageCases(j, bw, i);
      Put(out, inp, o, i, Plus(inp[i0 + i], out[o + i - bw] / 2), j);
      i := i + 1;
    }
  }

  method UndoAverage(out: array<byte>, inp: array<byte>, o: nat, i0: nat, p: int, bw: nat, length: nat, ghost j: Job)
    requires Undone(j, out[..], inp[..], 0) && j.o == o && j.i0 == i0 && j.p == p && (out == inp ==> o <= i0)
    requires AverageJob(j, bw) && |j.row| == |j.scan| == length && 1 <= bw <= length
    modifies out
    ensures Undone(j, out[..], inp[..], length)
  {
    hide Undone, AverageJob;
    Readable(j, out[..], inp[..], 0);
    if p >= 0 {
      AverageBelow(out, inp, o, i0, p, bw, length, j);
    } else {
      AverageFirst(out, inp, o, i0, bw, length, j);
    }
  }

  // ---------- Paeth, unrolled ----------

  /** What the Paeth loops assume of their line. */
  ghost predicate PaethJob(j: Job, bw: nat)
  {
    && |j.row| == |j.scan| == |j.prev| && 1 <= bw <= |j.row| && j.p >= 0
    && forall i :: 0 <= i < |j.row| ==> j.row[i] == UnPaethAt(j.scan, j.row, j.prev, bw, i)
  }

  /** Byte i from what lies in the buffers when the bytes up to n are undone; n may be i, or up to a
      pixel less. */
  lemma PaethFromBuffers(j: Job, s: seq<byte>, t: seq<byte>, bw: nat, n: nat, i: nat)
    requires PaethJob(j, bw) && Undone(j, s, t, n) && bw <= n <= i < n + bw && i < |j.row|
    ensures j.i0 + i < |t| && j.o + i <= |s| && 0 <= j.o + i - bw && 0 <= j.p + i - bw && j.p + i < |s|
    ensures j.row[i] == Plus(t[j.i0 + i], Paeth(s[j.o + i - bw], s[j.p + i], s[j.p + i - bw]))
  {
    hide Plus, Paeth;
    Readable(j, s, t, n);
  }

  /** The predicted byte for i, read from the buffers. */
  method PaethAhead(out: array<byte>, inp: array<byte>, o: nat, i0: nat, p: nat, bw: nat, ghost n: nat, i: nat, ghost j: Job)
    returns (b: byte)
    requires PaethJob(j, bw) && j.o == o && j.i0 == i0 && j.p == p
    requires Undone(j, out[..], inp[..], n) && bw <= n <= i < n + bw && i < |j.row|
    ensures b == j.row[i]
  {
    hide Plus, Paeth, PaethJob, Undone;
    PaethFromBuffers(j, out[..], inp[..], bw, n, i);
    var k := i - bw;
    var s, r, up, q := inp[i0 + i], out[o + k], out[p + i], out[p + k];
    var predicted := PaethPredictor(r, up, q);
    b := Plus(s, predicted);
  }

  method PaethByFour(out: array<byte>, inp: array<byte>, o: nat, i0: nat, p: nat, bw: nat, length: nat, start: nat,
                     ghost j: Job) returns (i: nat)
    requires PaethJob(j, bw) && j.o == o && j.i0 == i0 && j.p == p && (out == inp ==> o <= i0)
    requires length == |j.row| && 4 <= bw <= start <= length && Undone(j, out[..], inp[..], start)
    modifies out
    ensures start <= i <= length && Undone(j, out[..], inp[..], i)
  {
    hide PaethJob, Undone;
    i := start;
    while i + 3 < length
      invariant start <= i <= length && Undone(j, out[..], inp[..], i)
    {
      var b0 := PaethAhead(out, inp, o, i0, p, bw, i, i, j);
      var b1 := PaethAhead(out, inp, o, i0, p, bw, i, i + 1, j);
      var b2 := PaethAhead(out, inp, o, i0, p, bw, i, i + 2, j);
      var b3 := PaethAhead(out, inp, o, i0, p, bw, i, i + 3, j);
      Put(out, inp, o, i, b0, j);
      Put(out, inp, o, i + 1, b1, j);
      Put(out, inp, o, i + 2, b2, j);
      Put(out, inp, o, i + 3, b3, j);
      i := i + 4;
    }
  }

  method PaethByThree(out: array<byte>, inp: array<byte>, o: nat, i0: nat, p: nat, bw: nat, length: nat, start: nat,
                      ghost j: Job) returns (i: nat)
    requires PaethJob(j, bw) && j.o == o && j.i0 == i0 && j.p == p && (out == inp ==> o <= i0)
    requires length == |j.row| && 3 <= bw <= start <= length && Undone(j, out[..], inp[..], start)
    modifies out
    ensures start <= i <= length && Undone(j, out[..], inp[..], i)
  {
    hide PaethJob, Undone;
    i := start;
    while i + 2 < length
      invariant start <= i <= length && Undone(j, out[..], inp[..], i)
    {
      var b0 := PaethAhead(out, inp, o, i0, p, bw, i, i, j);
      var b1 := PaethAhead(out, inp, o, i0, p, bw, i, i + 1, j);
      var b2 := PaethAhead(out, inp, o, i0, p, bw, i, i + 2, j);
      Put(out, inp, o, i, b0, j);
      Put(out, inp, o, i + 1, b1, j);
      Put(out, inp, o, i + 2, b2, j);
      i := i + 3;
    }
  }

  method PaethByTwo(out: array<byte>, inp: array<byte>, o: nat, i0: nat, p: nat, bw: nat, length: nat, start: nat,
                    ghost j: Job) returns (i: nat)
    requires PaethJob(j, bw) && j.o == o && j.i0 == i0 && j.p == p && (out == inp ==> o <= i0)
    requires length == |j.row| && 2 <= bw <= start <= length && Undone(j, out[..], inp[..], start)
    modifies out
    ensures start <= i <= length && Undone(j, out[..], inp[..], i)
  {
    hide PaethJob, Undone;
    i := start;
    while i + 1 < length
      invariant start <= i <= length && Undone(j, out[..], inp[..], i)
    {
      var b0 := PaethAhead(out, inp, o, i0, p, bw, i, i, j);
      var b1 := PaethAhead(out, inp, o, i0, p, bw, i, i + 1, j);
      Put(out, inp, o, i, b0, j);
      Put(out, inp, o, i + 1, b1, j);
      i := i + 2;
    }
  }

  /** The first pixel of a Paeth line: paethPredictor(0, up, 0) is up. */
  lemma FirstPixel(j: Job, bw: nat, i: nat)
    requires PaethJob(j, bw) && i < bw
    ensures i < |j.scan| == |j.prev| == |j.row| && j.row[i] == Plus(j.scan[i], j.prev[i])
  {
  }

  lemma PaethJobSizes(j: Job, bw: nat)
    requires PaethJob(j, bw)
    ensures |j.row| == |j.scan| == |j.prev| && 1 <= bw <= |j.row| && j.p >= 0
  {
  }

  method UndoPaeth(out: array<byte>, inp: array<byte>, o: nat, i0: nat, p: nat, bw: nat, length: nat, ghost j: Job)
    requires PaethJob(j, bw) && j.o == o && j.i0 == i0 && j.p == p && (out == inp ==> o <= i0)
    requires length == |j.row| && Undone(j, out[..], inp[..], 0)
    modifies out
    ensures Undone(j, out[..], inp[..], length)
  {
    hide PaethJob, Undone, Plus;
    PaethJobSizes(j, bw);
    var i := 0;
    while i != bw
      invariant i <= bw && Undone(j, out[..], inp[..], i)
    {
      Readable(j, out[..], inp[..], i);
      FirstPixel(j, bw, i);
      Put(out, inp, o, i, Plus(inp[i0 + i], out[p + i]), j);
      i := i + 1;
    }
    if bw >= 4 {
      i := PaethByFour(out, inp, o, i0, p, bw, length, i, j);
    } else if bw >= 3 {
      i := PaethByThree(out, inp, o, i0, p, bw, length, i, j);
    } else if bw >= 2 {
      i := PaethByTwo(out, inp, o, i0, p, bw, length, i, j);
    }
    while i != length
      invariant bw <= i <= length && Undone(j, out[..], inp[..], i)
    {
      var b := PaethAhead(out, inp, o, i0, p, bw, i, i, j);
      Put(out, inp, o, i, b, j);
      i := i + 1;
    }
  }

  // ---------- one line ----------

  /** The line above, at p in the output; none if p < 0. */
  function LineAbove(s: seq<byte>, p: int, length: nat): (l: seq<byte>)
    requires p >= 0 ==> p + length <= |s|
    ensures l == [] || |l| == length
  {
    if p < 0 then [] else s[p..p + length]
  }

  lemma StartUndoing(j: Job, s: seq<byte>, t: seq<byte>)
    requires j.s0 == s && |j.row| == |j.scan| && j.o + |j.row| <= |s|
    requires j.i0 + |j.scan| <= |t| && j.scan == t[j.i0..j.i0 + |j.scan|]
    requires (j.p >= 0 ==> j.p + |j.row| <= j.o) && j.prev == LineAbove(s, j.p, |j.row|)
    ensures Undone(j, s, t, 0)
  {
    FillingNone(s, j.o, j.row);
  }

  lemma UndoneAll(j: Job, s: seq<byte>, t: seq<byte>, i: nat)
    requires Undone(j, s, t, i) && i == |j.row|
    ensures s == Overwrite(j.s0, j.o, j.row)
  {
    FillingDone(s, j.s0, j.o, j.row, i);
  }

  method UndoLine(out: array<byte>, inp: array<byte>, o: nat, i0: nat, p: int, bw: nat, kind: nat, length: nat, ghost j: Job)
    requires kind <= 4 && j.o == o && j.i0 == i0 && j.p == p && (out == inp ==> o <= i0)
    requires 1 <= bw <= length == |j.scan| && (j.prev == [] || |j.prev| == length) && (p < 0 <==> j.prev == [])
    requires j.row == UnfilterRow(kind, j.scan, j.prev, bw) && Undone(j, out[..], inp[..], 0)
    modifies out
    ensures Undone(j, out[..], inp[..], length)
  {
    hide Undone, UnfilterRow, UnSubAt, UnUpAt, UnAverageAt, UnPaethAt;
    forall i | 0 <= i < length
      ensures kind == 0 ==> j.row[i] == j.scan[i]
      ensures kind == 1 ==> j.row[i] == UnSubAt(j.scan, j.row, bw, i)
      ensures kind == 2 ==> j.row[i] == UnUpAt(j.scan, j.prev, i)
      ensures kind == 3 ==> j.row[i] == UnAverageAt(j.scan, j.row, j.prev, bw, i)
      ensures kind == 4 ==> j.row[i] == UnPaethAt(j.scan, j.row, j.prev, bw, i)
    {
      UnfilterBytes(kind, j.scan, j.prev, bw, i);
    }
    if kind == 0 {
      TakeBytes(out, inp, o, i0, 0, length, j);
    } else if kind == 1 {
      AddLeft(out, inp, o, i0, bw, length, j);
    } else if kind == 2 {
      UndoUp(out, inp, o, i0, p, length, j);
    } else if kind == 3 {
      UndoAverage(out, inp, o, i0, p, bw, length, j);
    } else if p >= 0 {
      UndoPaeth(out, inp, o, i0, p, bw, length, j);
    } else {
      PaethWithoutLine(j, bw);
      AddLeft(out, inp, o, i0, bw, length, j);
    }
  }

  lemma PaethWithoutLine(j: Job, bw: nat)
    requires |j.row| == |j.scan| && j.prev == []
    requires forall i :: 0 <= i < |j.row| ==> j.row[i] == UnPaethAt(j.scan, j.row, j.prev, bw, i)
    ensures forall i :: 0 <= i < |j.row| ==> j.row[i] == UnSubAt(j.scan, j.row, bw, i)
  {
  }

  /** Undoes the filter of one line; the rest of the output is left alone. */
  method UnfilterScanline(out: array<byte>, o: nat, inp: array<byte>, i0: nat, p: int, bw: nat, kind: nat, length: nat)
    returns (error: nat)
    requires o + length <= out.Length && i0 + length <= inp.Length && 1 <= bw <= length
    requires (p >= 0 ==> p + length <= o) && (out == inp ==> o <= i0)
    modifies out
    ensures error == if kind > 4 then 36 else 0
    ensures out[..] == if kind > 4 then old(out[..])
                       else Overwrite(old(out[..]), o, UnfilterRow(kind, old(inp[i0..i0 + length]),
                                                                   LineAbove(old(out[..]), p, length), bw))
    ensures kind <= 4 ==> Stands(kind, out[o..o + length], old(inp[i0..i0 + length]),
                                 LineAbove(old(out[..]), p, length), bw)
  {
    hide Undone, UnfilterRow, Overwrite, Stands;
    if kind > 4 {
      return 36;
    }
    ghost var s0, scan := out[..], inp[i0..i0 + length];
    ghost var prev := LineAbove(s0, p, length);
    ghost var j := Job(s0, o, UnfilterRow(kind, scan, prev, bw), i0, scan, p, prev);
    StartUndoing(j, out[..], inp[..]);
    UndoLine(out, inp, o, i0, p, bw, kind, length, j);
    UndoneAll(j, out[..], inp[..], length);
    OverwriteRead(s0, o, j.row);
    UnfilteredStands(kind, scan, prev, bw);
    error := 0;
  }
}
