/**
 Reading the trees of a dynamic block: the code length tree, the code lengths with their
 repetitions, and the two trees built from them.
 */
module InflateTrees {
  import opened Bits
  import opened Canonical
  import opened DecodeTables
  import opened HuffmanTrees
  import opened DecodeSymbols
  import opened BitReaders
  import opened InflateSpec
  import opened FixedTrees

  // ---------- the code length code lengths ----------

  lemma ClOrderRange(i: nat)
    requires i < 19
    ensures |CLCL_ORDER| == 19 && CLCL_ORDER[i] < 19
  {
  }

  lemma ClStep(data: seq<byte>, pos: nat, n: nat)
    requires n < NUM_CODE_LENGTH_CODES
    ensures |CLCL_ORDER| == 19 && CLCL_ORDER[n] < 19
    ensures ClLengths(data, pos, n + 1) == ClLengths(data, pos, n)[CLCL_ORDER[n] := Number(data, pos + 3 * n, 3)]
  {
    ClOrderRange(n);
  }

  lemma ClZero(data: seq<byte>, pos: nat)
    ensures ClLengths(data, pos, 0) == seq(NUM_CODE_LENGTH_CODES, i => 0)
  {
  }

  method ReadClLengths(reader: BitReader, hclen: nat) returns (bitlenCl: seq<nat>)
    requires reader.Valid() && hclen <= NUM_CODE_LENGTH_CODES
    requires reader.bp + 3 * hclen <= reader.bitsize
    modifies reader
    ensures reader.Valid() && reader.bp == old(reader.bp) + 3 * hclen
    ensures bitlenCl == ClLengths(reader.data, old(reader.bp), hclen)
  {
    hide CLCL_ORDER, ClLengths, Number;
    ghost var pos := reader.bp;
    bitlenCl := seq(NUM_CODE_LENGTH_CODES, i => 0);
    ClZero(reader.data, pos);
    var i := 0;
    while i != hclen
      invariant i <= hclen && reader.Valid() && reader.bp == pos + 3 * i
      invariant bitlenCl == ClLengths(reader.data, pos, i)
    {
      ClStep(reader.data, pos, i);
      ThreeBits(reader.data, reader.bp);
      var ok := reader.EnsureBits9(3);
      var n := ReadNumber(reader, 3);
      bitlenCl := bitlenCl[CLCL_ORDER[i] := n];
      i := i + 1;
    }
  }

  method ReadNumber(reader: BitReader, n: nat) returns (r: nat)
    requires reader.Valid() && n <= reader.avail
    modifies reader
    ensures reader.Valid() && reader.bp == old(reader.bp) + n && reader.avail == old(reader.avail) - n
    ensures r == Number(reader.data, old(reader.bp), n)
  {
    r := reader.ReadBits(n);
  }

  // ---------- the code lengths of the two trees ----------

  /** The two length arrays filled with `acc`, the rest zero. */
  ghost predicate Filled(bl: seq<nat>, bd: seq<nat>, hlit: nat, acc: seq<nat>)
  {
    && |bl| == 288 && |bd| == 32 && hlit <= 288 && |acc| <= hlit + 32
    && (forall k :: 0 <= k < 288 ==> bl[k] == if k < hlit && k < |acc| then acc[k] else 0)
    && (forall k :: 0 <= k < 32 ==> bd[k] == if hlit + k < |acc| then acc[hlit + k] else 0)
  }

  /** Writes the length of symbol i to the array it belongs to. */
  method SetLength(bl: array<nat>, bd: array<nat>, hlit: nat, i: nat, v: nat, ghost acc: seq<nat>)
    requires bl != bd && bl.Length == 288 && bd.Length == 32 && i == |acc| < hlit + 32
    requires Filled(bl[..], bd[..], hlit, acc)
    modifies bl, bd
    ensures Filled(bl[..], bd[..], hlit, acc + [v])
  {
    if i < hlit { bl[i] := v; } else { bd[i - hlit] := v; }
  }

  /** Repeats a length n times, unless that would be too many. */
  method RepeatLength(bl: array<nat>, bd: array<nat>, hlit: nat, total: nat, start: nat, v: nat, n: nat, ghost acc: seq<nat>)
    returns (i: nat, tooMany: bool)
    requires bl != bd && bl.Length == 288 && bd.Length == 32 && start == |acc| <= total <= hlit + 32
    requires Filled(bl[..], bd[..], hlit, acc)
    modifies bl, bd
    ensures tooMany <==> |acc| + n > total
    ensures !tooMany ==> i == |acc| + n && Filled(bl[..], bd[..], hlit, acc + Repeat(v, n))
  {
    hide Filled;
    i, tooMany := start, false;
    var k := 0;
    assert acc + Repeat(v, 0) == acc;
    while k < n
      invariant k <= n && i == start + k <= total && !tooMany
      invariant Filled(bl[..], bd[..], hlit, acc + Repeat(v, k))
    {
      if i >= total {
        tooMany := true;
        return;
      }
      assert acc + Repeat(v, k + 1) == (acc + Repeat(v, k)) + [v];
      SetLength(bl, bd, hlit, i, v, acc + Repeat(v, k));
      i := i + 1;
      k := k + 1;
    }
  }

  lemma LastFilled(bl: seq<nat>, bd: seq<nat>, hlit: nat, acc: seq<nat>)
    requires Filled(bl, bd, hlit, acc) && |acc| > 0
    ensures |acc| < hlit + 1 ==> |acc| <= |bl| && bl[|acc| - 1] == acc[|acc| - 1]
    ensures |acc| >= hlit + 1 ==> |acc| - hlit <= |bd| && bd[|acc| - hlit - 1] == acc[|acc| - 1]
  {
  }

  /** Reads one code length symbol. Error 13, 14 or 15 (too many lengths) is reported as `late`,
      because overrunning the stream goes first. */
  method ReadLengthStep(reader: BitReader, tree: HuffmanTree, ghost cl: seq<nat>, bl: array<nat>, bd: array<nat>,
                        hlit: nat, total: nat, i: nat, ghost acc: seq<nat>)
    returns (newi: nat, error: nat, late: nat, ghost newacc: seq<nat>)
    requires reader.Valid() && tree.Ready(cl) && |cl| == NUM_CODE_LENGTH_CODES
    requires bl != bd && bl.Length == 288 && bd.Length == 32 && i == |acc| < total <= hlit + 32
    requires Filled(bl[..], bd[..], hlit, acc)
    modifies reader, bl, bd
    ensures reader.Valid()
    ensures match DecodeLengthStep(reader.data, cl, old(reader.bp), acc, total)
            case LengthError(e) => error == e != 0
            case TooMany(e, p) => error == 0 && late == e != 0 && reader.bp == p
            case Lengths(add, p) => error == 0 && late == 0 && reader.bp == p && newacc == acc + add
                                    && newi == |newacc| && Filled(bl[..], bd[..], hlit, newacc)
  {
    hide NextSymbol, Number, Filled, CodesFor, Accepted, Decodes;
    newi, error, late, newacc := i, 0, 0, acc;
    var ok := reader.EnsureBits25(22);
    NextSymbolPresent(cl, reader.data, reader.bp);
    var code := HuffmanDecodeSymbol(reader, tree, cl);
    var value, n, tooManyError, tooMany := 0, 0, 0, false;
    if code <= 15 {
      SetLength(bl, bd, hlit, i, code, acc);
      newi := i + 1;
      newacc := acc + [code];
      return;
    } else if code == 16 {
      if i == 0 {
        error := 54;
        return;
      }
      n := ReadNumber(reader, 2);
      n := n + 3;
      LastFilled(bl[..], bd[..], hlit, acc);
      value := if i < hlit + 1 then bl[i - 1] else bd[i - hlit - 1];
      tooManyError := 13;
    } else if code == 17 {
      n := ReadNumber(reader, 3);
      n := n + 3;
      tooManyError := 14;
    } else if code == 18 {
      n := ReadNumber(reader, 7);
      n := n + 11;
      tooManyError := 15;
    } else {
      error := 16;
      return;
    }
    newi, tooMany := RepeatLength(bl, bd, hlit, total, i, value, n, acc);
    newacc := acc + Repeat(value, n);
    if tooMany { late := tooManyError; }
  }

  method ReadLengths(reader: BitReader, tree: HuffmanTree, ghost cl: seq<nat>, bl: array<nat>, bd: array<nat>,
                     hlit: nat, total: nat) returns (error: nat, ghost lens: seq<nat>)
    requires reader.Valid() && reader.bp <= reader.bitsize && tree.Ready(cl) && |cl| == NUM_CODE_LENGTH_CODES
    requires bl != bd && bl.Length == 288 && bd.Length == 32 && total <= hlit + 32
    requires Filled(bl[..], bd[..], hlit, [])
    modifies reader, bl, bd
    ensures reader.Valid()
    ensures match DecodeLengths(reader.data, cl, old(reader.bp), [], total)
            case Fail(e) => error == e != 0
            case Done(v, p) => error == 0 && reader.bp == p && lens == v && Filled(bl[..], bd[..], hlit, lens)
  {
    hide DecodeLengthStep, Filled, CodesFor, Accepted, Decodes;
    error, lens := 0, [];
    ghost var goal := DecodeLengths(reader.data, cl, reader.bp, [], total);
    var i := 0;
    while i < total
      invariant i == |lens| <= total && error == 0
      invariant reader.Valid() && reader.bp <= reader.bitsize
      invariant DecodeLengths(reader.data, cl, reader.bp, lens, total) == goal
      invariant Filled(bl[..], bd[..], hlit, lens)
    {
      LengthStepAdvances(reader.data, cl, reader.bp, lens, total);
      var late;
      i, error, late, lens := ReadLengthStep(reader, tree, cl, bl, bd, hlit, total, i, lens);
      if error != 0 {
        return;
      }
      if reader.bp > reader.bitsize {
        error := 50;
        return;
      }
      if late != 0 {
        error := late;
        return;
      }
    }
  }

  lemma FilledIsPadded(bl: seq<nat>, bd: seq<nat>, hlit: nat, lens: seq<nat>)
    requires Filled(bl, bd, hlit, lens) && hlit <= |lens|
    ensures bl == Pad(lens[..hlit], 288) && bd == Pad(lens[hlit..], 32)
  {
  }

  lemma NothingFilled(bl: seq<nat>, bd: seq<nat>, hlit: nat)
    requires |bl| == 288 && |bd| == 32 && hlit <= 288
    requires (forall k :: 0 <= k < 288 ==> bl[k] == 0) && (forall k :: 0 <= k < 32 ==> bd[k] == 0)
    ensures Filled(bl, bd, hlit, [])
  {
  }

  /** Code lengths read from the stream are at most 15. */
  lemma {:induction false} DecodedLengthsValid(data: seq<byte>, cl: seq<nat>, pos: nat, acc: seq<nat>, total: nat)
    requires |acc| <= total && |cl| == NUM_CODE_LENGTH_CODES && pos <= 8 * |data| && ValidLengths(acc)
    ensures var r := DecodeLengths(data, cl, pos, acc, total); r.Done? ==> ValidLengths(r.value)
    decreases total - |acc|
  {
    hide NextSymbol, Number;
    if |acc| < total {
      LengthStepAdvances(data, cl, pos, acc, total);
      var st := DecodeLengthStep(data, cl, pos, acc, total);
      if st.Lengths? && st.pos <= 8 * |data| {
        DecodedLengthsValid(data, cl, st.pos, acc + st.add, total);
      }
    }
  }

  lemma PaddedValid(lens: seq<nat>, hlit: nat)
    requires ValidLengths(lens) && hlit <= |lens|
    ensures ValidLengths(Pad(lens[..hlit], 288)) && ValidLengths(Pad(lens[hlit..], 32))
  {
  }

  // ---------- the whole header ----------

  method BuildTrees(bl: seq<nat>, bd: seq<nat>, treeLL: HuffmanTree, treeD: HuffmanTree) returns (error: nat)
    requires |bl| == 288 && |bd| == 32 && ValidLengths(bl) && ValidLengths(bd) && treeLL != treeD
    modifies treeLL, treeD
    ensures error == if bl[256] == 0 then 64 else if !Accepted(bl) || !Accepted(bd) then 55 else 0
    ensures error == 0 ==> treeLL.Ready(bl) && treeD.Ready(bd)
  {
    hide Accepted, CodesFor, Decodes;
    if bl[256] == 0 {
      return 64;
    }
    error := treeLL.MakeFromLengths(bl, 15);
    if error == 0 {
      error := treeD.MakeFromLengths(bd, 15);
    }
  }

  /** The lengths and the trees, once the code length tree is known. */
  method ReadTrees(reader: BitReader, treeCl: HuffmanTree, ghost cl: seq<nat>, hlit: nat, hdist: nat,
                   treeLL: HuffmanTree, treeD: HuffmanTree) returns (error: nat)
    requires reader.Valid() && reader.bp <= reader.bitsize && treeCl.Ready(cl) && |cl| == NUM_CODE_LENGTH_CODES
    requires 257 <= hlit <= 288 && 1 <= hdist <= 32 && treeLL != treeD
    modifies reader, treeLL, treeD
    ensures reader.Valid()
    ensures match DecodeLengths(reader.data, cl, old(reader.bp), [], hlit + hdist)
            case Fail(e) => error == e != 0
            case Done(lens, p) =>
              match TreesFrom(lens, hlit, p)
              case Fail(e) => error == e != 0
              case Done(t, p') => error == 0 && reader.bp == p' && treeLL.Ready(t.ll) && treeD.Ready(t.dl)
  {
    hide DecodeLengths, Accepted, CodesFor, Decodes, Filled, Pad;
    var bl, bd := new nat[288](_ => 0), new nat[32](_ => 0);
    NothingFilled(bl[..], bd[..], hlit);
    ghost var pos, lens := reader.bp, [];
    error, lens := ReadLengths(reader, treeCl, cl, bl, bd, hlit, hlit + hdist);
    if error != 0 {
      return;
    }
    DecodedLengthsValid(reader.data, cl, pos, [], hlit + hdist);
    FilledIsPadded(bl[..], bd[..], hlit, lens);
    PaddedValid(lens, hlit);
    error := BuildTrees(bl[..], bd[..], treeLL, treeD);
  }

  method GetTreeInflateDynamic(reader: BitReader, treeLL: HuffmanTree, treeD: HuffmanTree) returns (error: nat)
    requires reader.Valid() && treeLL != treeD
    modifies reader, treeLL, treeD
    ensures reader.Valid()
    ensures match DynamicTrees(reader.data, old(reader.bp))
            case Fail(e) => error == e != 0
            case Done(t, p) => error == 0 && reader.bp == p && treeLL.Ready(t.ll) && treeD.Ready(t.dl)
  {
    hide DecodeLengths, TreesFrom, Accepted, CodesFor, Decodes, ClLengths, Number;
    ghost var pos := reader.bp;
    var ok := reader.EnsureBits17(14);
    if !ok {
      return 49;
    }
    HeaderBounds(reader.data, pos);
    var hlit := ReadNumber(reader, 5);
    hlit := hlit + 257;
    var hdist := ReadNumber(reader, 5);
    hdist := hdist + 1;
    var hclen := ReadNumber(reader, 4);
    hclen := hclen + 4;
    if reader.bp + hclen * 3 > reader.bitsize {
      return 50;
    }
    var bitlenCl := ReadClLengths(reader, hclen);
    var treeCl := new HuffmanTree();
    error := treeCl.MakeFromLengths(bitlenCl, 7);
    if error == 0 {
      error := ReadTrees(reader, treeCl, bitlenCl, hlit, hdist, treeLL, treeD);
    }
  }

  method GetTreeInflateFixed(treeLL: HuffmanTree, treeD: HuffmanTree) returns (error: nat)
    requires treeLL != treeD
    modifies treeLL, treeD
    ensures error == 0 && treeLL.Ready(FixedLitLen()) && treeD.Ready(FixedDistance())
  {
    hide Accepted, CodesFor, Decodes;
    error := GenerateFixedLitLenTree(treeLL);
    error := GenerateFixedDistanceTree(treeD);
  }
}
