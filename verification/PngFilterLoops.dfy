/**
 The encoder's filter loops: one scanline at a time, with the first pixel and a missing line above
 treated as the code treats them.
 */
module PngFilterLoops {
  import opened Bits
  import opened PngLines
  import opened PngFilters

  /** The first i bytes of the row have been written at o; everything else is as it was. */
  ghost predicate Filling(s: seq<byte>, s0: seq<byte>, o: nat, row: seq<byte>, i: nat)
  {
    i <= |row| && o + |row| <= |s0| && s == Overwrite(s0, o, row[..i])
  }

  lemma FillingNone(s: seq<byte>, o: nat, row: seq<byte>)
    requires o + |row| <= |s|
    ensures Filling(s, s, o, row, 0)
  {
  }

  lemma FillingNext(s: seq<byte>, s0: seq<byte>, o: nat, row: seq<byte>, i: nat, b: byte)
    requires Filling(s, s0, o, row, i) && i < |row| && b == row[i]
    ensures o + i < |s| == |s0| && Filling(s[o + i := b], s0, o, row, i + 1)
  {
    assert row[..i + 1] == row[..i] + [b];
    OverwriteSnoc(s0, o, row[..i], b);
  }

  lemma FillingDone(s: seq<byte>, s0: seq<byte>, o: nat, row: seq<byte>, i: nat)
    requires Filling(s, s0, o, row, i) && i == |row|
    ensures s == Overwrite(s0, o, row)
  {
    assert row[..i] == row;
  }

  /** Writes one byte of the row. */
  method Put(out: array<byte>, ghost s0: seq<byte>, o: nat, ghost row: seq<byte>, i: nat, b: byte)
    requires Filling(out[..], s0, o, row, i) && i < |row| && b == row[i]
    modifies out
    ensures Filling(out[..], s0, o, row, i + 1)
  {
    hide Filling;
    FillingNext(out[..], s0, o, row, i, b);
    out[o + i] := b;
  }

  // ---------- what the loops compute ----------

  lemma NoneByte(line: seq<byte>, prev: seq<byte>, bw: nat, i: nat)
    requires i < |line|
    ensures FilterByte(0, line, prev, bw, i) == line[i]
  {
  }

  /** Sub as the code computes it: the first pixel has no left neighbour. */
  function SubAt(line: seq<byte>, bw: nat, i: nat): byte
    requires i < |line|
  {
    if i < bw then line[i] else Minus(line[i], line[i - bw])
  }

  lemma SubByte(line: seq<byte>, prev: seq<byte>, bw: nat, i: nat)
    requires i < |line|
    ensures FilterByte(1, line, prev, bw, i) == SubAt(line, bw, i)
  {
  }

  function UpAt(line: seq<byte>, prev: seq<byte>, i: nat): byte
    requires i < |line| && (prev == [] || |prev| == |line|)
  {
    if prev == [] then line[i] else Minus(line[i], prev[i])
  }

  lemma UpByte(line: seq<byte>, prev: seq<byte>, bw: nat, i: nat)
    requires i < |line| && (prev == [] || |prev| == |line|)
    ensures FilterByte(2, line, prev, bw, i) == UpAt(line, prev, i)
  {
  }

  function AverageAt(line: seq<byte>, prev: seq<byte>, bw: nat, i: nat): byte
    requires i < |line| && (prev == [] || |prev| == |line|)
  {
    if prev == [] then if i < bw then line[i] else Minus(line[i], line[i - bw] / 2)
    else if i < bw then Minus(line[i], prev[i] / 2)
    else Minus(line[i], Mean(line[i - bw], prev[i]))
  }

  lemma AverageByte(line: seq<byte>, prev: seq<byte>, bw: nat, i: nat)
    requires i < |line| && (prev == [] || |prev| == |line|)
    ensures FilterByte(3, line, prev, bw, i) == AverageAt(line, prev, bw, i)
  {
  }

  function PaethAt(line: seq<byte>, prev: seq<byte>, bw: nat, i: nat): byte
    requires i < |line| && (prev == [] || |prev| == |line|)
  {
    if prev == [] then if i < bw then line[i] else Minus(line[i], line[i - bw])
    else if i < bw then Minus(line[i], prev[i])
    else Minus(line[i], Paeth(line[i - bw], prev[i], prev[i - bw]))
  }

  lemma PaethByte(line: seq<byte>, prev: seq<byte>, bw: nat, i: nat)
    requires i < |line| && (prev == [] || |prev| == |line|)
    ensures FilterByte(4, line, prev, bw, i) == PaethAt(line, prev, bw, i)
  {
    hide Paeth;
    PaethEdges(ByteAt(prev, i));
    PaethEdges(Left(line, i, bw));
  }

  lemma SubRow(scanline: seq<byte>, prev: seq<byte>, bw: nat)
    ensures forall i :: 0 <= i < |scanline| ==> FilterRow(1, scanline, prev, bw)[i] == SubAt(scanline, bw, i)
  {
    hide FilterByte, SubAt;
    forall i | 0 <= i < |scanline|
      ensures FilterRow(1, scanline, prev, bw)[i] == SubAt(scanline, bw, i)
    {
      SubByte(scanline, prev, bw, i);
    }
  }

  lemma UpRow(scanline: seq<byte>, prev: seq<byte>, bw: nat)
    requires prev == [] || |prev| == |scanline|
    ensures forall i :: 0 <= i < |scanline| ==> FilterRow(2, scanline, prev, bw)[i] == UpAt(scanline, prev, i)
  {
    hide FilterByte, UpAt;
    forall i | 0 <= i < |scanline|
      ensures FilterRow(2, scanline, prev, bw)[i] == UpAt(scanline, prev, i)
    {
      UpByte(scanline, prev, bw, i);
    }
  }

  lemma AverageRow(scanline: seq<byte>, prev: seq<byte>, bw: nat)
    requires prev == [] || |prev| == |scanline|
    ensures forall i :: 0 <= i < |scanline| ==> FilterRow(3, scanline, prev, bw)[i] == AverageAt(scanline, prev, bw, i)
  {
    hide FilterByte, AverageAt;
    forall i | 0 <= i < |scanline|
      ensures FilterRow(3, scanline, prev, bw)[i] == AverageAt(scanline, prev, bw, i)
    {
      AverageByte(scanline, prev, bw, i);
    }
  }

  lemma PaethRow(scanline: seq<byte>, prev: seq<byte>, bw: nat)
    requires prev == [] || |prev| == |scanline|
    ensures forall i :: 0 <= i < |scanline| ==> FilterRow(4, scanline, prev, bw)[i] == PaethAt(scanline, prev, bw, i)
  {
    hide FilterByte, PaethAt;
    forall i | 0 <= i < |scanline|
      ensures FilterRow(4, scanline, prev, bw)[i] == PaethAt(scanline, prev, bw, i)
    {
      PaethByte(scanline, prev, bw, i);
    }
  }

  // ---------- the loops ----------

  /** Copies the bytes from one index up to another. */
  method CopyBytes(out: array<byte>, ghost s0: seq<byte>, o: nat, ghost row: seq<byte>, scanline: seq<byte>,
                   from: nat, to: nat)
    requires Filling(out[..], s0, o, row, from) && |row| == |scanline| && from <= to <= |scanline|
    requires forall i :: from <= i < to ==> row[i] == scanline[i]
    modifies out
    ensures Filling(out[..], s0, o, row, to)
  {
    hide Filling;
    var i := from;
    while i != to
      invariant from <= i <= to && Filling(out[..], s0, o, row, i)
    {
      Put(out, s0, o, row, i, scanline[i]);
      i := i + 1;
    }
  }

  method FilterSub(out: array<byte>, ghost s0: seq<byte>, o: nat, scanline: seq<byte>, ghost prev: seq<byte>, bw: nat,
                   ghost row: seq<byte>)
    requires Filling(out[..], s0, o, row, 0) && 1 <= bw <= |scanline|
    requires row == FilterRow(1, scanline, prev, bw)
    modifies out
    ensures Filling(out[..], s0, o, row, |row|)
  {
    hide Filling, Minus, FilterRow;
    SubRow(scanline, prev, bw);
    CopyBytes(out, s0, o, row, scanline, 0, bw);
    var i := bw;
    while i < |scanline|
      invariant bw <= i <= |scanline| && Filling(out[..], s0, o, row, i)
    {
      Put(out, s0, o, row, i, Minus(scanline[i], scanline[i - bw]));
      i := i + 1;
    }
  }

  method FilterUp(out: array<byte>, ghost s0: seq<byte>, o: nat, scanline: seq<byte>, prev: seq<byte>, ghost bw: nat,
                  ghost row: seq<byte>)
    requires Filling(out[..], s0, o, row, 0) && (prev == [] || |prev| == |scanline|)
    requires row == FilterRow(2, scanline, prev, bw)
    modifies out
    ensures Filling(out[..], s0, o, row, |row|)
  {
    hide Filling, Minus, FilterRow;
    UpRow(scanline, prev, bw);
    if prev != [] {
      var i := 0;
      while i != |scanline|
        invariant i <= |scanline| && Filling(out[..], s0, o, row, i)
      {
        Put(out, s0, o, row, i, Minus(scanline[i], prev[i]));
        i := i + 1;
      }
    } else {
      CopyBytes(out, s0, o, row, scanline, 0, |scanline|);
    }
  }

  method FilterAverage(out: array<byte>, ghost s0: seq<byte>, o: nat, scanline: seq<byte>, prev: seq<byte>, bw: nat,
                       ghost row: seq<byte>)
    requires Filling(out[..], s0, o, row, 0) && 1 <= bw <= |scanline| && (prev == [] || |prev| == |scanline|)
    requires row == FilterRow(3, scanline, prev, bw)
    modifies out
    ensures Filling(out[..], s0, o, row, |row|)
  {
    hide Filling, Minus, FilterRow;
    AverageRow(scanline, prev, bw);
    var i := 0;
    if prev != [] {
      while i != bw
        invariant i <= bw && Filling(out[..], s0, o, row, i)
      {
        Put(out, s0, o, row, i, Minus(scanline[i], prev[i] / 2));
        i := i + 1;
      }
      while i < |scanline|
        invariant bw <= i <= |scanline| && Filling(out[..], s0, o, row, i)
      {
        Put(out, s0, o, row, i, Minus(scanline[i], Mean(scanline[i - bw], prev[i])));
        i := i + 1;
      }
    } else {
      CopyBytes(out, s0, o, row, scanline, 0, bw);
      i := bw;
      while i < |scanline|
        invariant bw <= i <= |scanline| && Filling(out[..], s0, o, row, i)
      {
        Put(out, s0, o, row, i, Minus(scanline[i], scanline[i - bw] / 2));
        i := i + 1;
      }
    }
  }

  method FilterPaeth(out: array<byte>, ghost s0: seq<byte>, o: nat, scanline: seq<byte>, prev: seq<byte>, bw: nat,
                     ghost row: seq<byte>)
    requires Filling(out[..], s0, o, row, 0) && 1 <= bw <= |scanline| && (prev == [] || |prev| == |scanline|)
    requires row == FilterRow(4, scanline, prev, bw)
    modifies out
    ensures Filling(out[..], s0, o, row, |row|)
  {
    hide Filling, Minus, FilterRow, Paeth;
    PaethRow(scanline, prev, bw);
    var i := 0;
    if prev != [] {
      while i != bw
        invariant i <= bw && Filling(out[..], s0, o, row, i)
      {
        Put(out, s0, o, row, i, Minus(scanline[i], prev[i]));
        i := i + 1;
      }
      while i < |scanline|
        invariant bw <= i <= |scanline| && Filling(out[..], s0, o, row, i)
      {
        var p := PaethPredictor(scanline[i - bw], prev[i], prev[i - bw]);
        Put(out, s0, o, row, i, Minus(scanline[i], p));
        i := i + 1;
      }
    } else {
      CopyBytes(out, s0, o, row, scanline, 0, bw);
      i := bw;
      while i < |scanline|
        invariant bw <= i <= |scanline| && Filling(out[..], s0, o, row, i)
      {
        Put(out, s0, o, row, i, Minus(scanline[i], scanline[i - bw]));
        i := i + 1;
      }
    }
  }

  /** Writes one filtered line at o; an unknown filter type writes nothing. */
  method FilterScanline(out: array<byte>, o: nat, scanline: seq<byte>, prev: seq<byte>, bw: nat, kind: nat)
    requires o + |scanline| <= out.Length && 1 <= bw <= |scanline| && (prev == [] || |prev| == |scanline|)
    modifies out
    ensures out[..] == if kind <= 4 then Overwrite(old(out[..]), o, FilterRow(kind, scanline, prev, bw))
                       else old(out[..])
    ensures kind <= 4 ==> Stands(kind, scanline, out[o..o + |scanline|], prev, bw)
  {
    hide Filling, Minus, FilterByte, Overwrite, Stands;
    ghost var s0, row := out[..], FilterRow(kind, scanline, prev, bw);
    FillingNone(s0, o, row);
    if kind > 4 {
      return;
    }
    if kind == 0 {
      forall i | 0 <= i < |row|
        ensures row[i] == scanline[i]
      {
        NoneByte(scanline, prev, bw, i);
      }
      CopyBytes(out, s0, o, row, scanline, 0, |scanline|);
    } else if kind == 1 {
      FilterSub(out, s0, o, scanline, prev, bw, row);
    } else if kind == 2 {
      FilterUp(out, s0, o, scanline, prev, bw, row);
    } else if kind == 3 {
      FilterAverage(out, s0, o, scanline, prev, bw, row);
    } else {
      FilterPaeth(out, s0, o, scanline, prev, bw, row);
    }
    FillingDone(out[..], s0, o, row, |row|);
    OverwriteRead(s0, o, row);
    FilteredStands(kind, scanline, prev, bw);
  }
}
