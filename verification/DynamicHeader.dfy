/**
 The header of a dynamic block: the code length tree, its trimming, and the writing of both levels
 of code lengths.
 */
module DynamicHeaders {
  import C = CodeLengths
  import opened Bits
  import opened Canonical
  import opened DecodeTables
  import opened HuffmanTrees
  import opened BitWriters
  import opened InflateSpec
  import opened DeflateFormat
  import opened RunLengths
  import opened EncoderTrees
  import opened DeflateWrite

  // ---------- the code length tree ----------

  lemma ItemsHaveCodes(its: seq<LengthItem>, freqs: seq<nat>, cl: seq<nat>)
    requires AllItemsOk(its) && |freqs| == NUM_CODE_LENGTH_CODES
    requires forall s :: 0 <= s < NUM_CODE_LENGTH_CODES ==> freqs[s] == ItemCount(its, s, |its|)
    requires CompleteFor(cl, freqs, 7)
    ensures AllItemsCoded(its, cl)
  {
    hide ItemCount, Kraft;
    forall k | 0 <= k < |its|
      ensures ItemOk(its[k], 1) && ItemCoded(its[k], cl) && ItemSymbol(its[k]) < |cl|
    {
      ItemCounted(its, k, |its|);
      assert freqs[ItemSymbol(its[k])] > 0;
      assert Present(cl, ItemSymbol(its[k]));
    }
  }

  lemma SevenBits()
    ensures Pow2(7) == 128
  {
    assert Pow2(4) == 16;
  }

  /** The run-length coded lengths and a tree for their symbols. */
  method MakeLengthTree(lens: seq<nat>) returns (error: nat, e: seq<nat>, ghost its: seq<LengthItem>, tree: HuffmanTree)
    requires forall i :: 0 <= i < |lens| ==> lens[i] <= 15
    ensures fresh(tree) && error == 0 && tree.Ready(tree.lengths)
    ensures ItemsOk(its) && ItemsLengths(its) == lens && AllItemsOk(its) && e == AllItemCodes(its) && |e| <= |lens|
    ensures AllItemsCoded(its, tree.lengths) && |tree.lengths| == NUM_CODE_LENGTH_CODES
    ensures Compact(its) && BestLengthTree(its, tree.lengths)
    ensures forall s :: 0 <= s < NUM_CODE_LENGTH_CODES ==> tree.lengths[s] <= 7
  {
    hide ItemsOk, AllItemsOk, AllItemCodes, ItemsLengths, ItemCount, Accepted, CodesFor, Decodes, CompleteFor, Pow2,
         Compact, C.Optimal;
    e, its := EncodeRuns(lens);
    var freqs := CountItems(e, its);
    tree := new HuffmanTree();
    SevenBits();
    error := MakeFromFrequencies(tree, freqs, NUM_CODE_LENGTH_CODES, 7);
    ItemsHaveCodes(its, freqs, tree.lengths);
    LengthsWithinLimit(tree.lengths, freqs, 7);
    NoMoreLengths(tree.lengths, freqs);
    LengthTreeIsBest(its, tree.lengths, freqs);
  }

  /** No tree for these items of at most seven bits takes fewer bits. */
  ghost predicate BestLengthTree(its: seq<LengthItem>, cl: seq<nat>)
  {
    C.Optimal(cl, ItemCounts(its), 7)
  }

  function ItemCounts(its: seq<LengthItem>): (freqs: seq<nat>)
    ensures |freqs| == NUM_CODE_LENGTH_CODES
    ensures forall s :: 0 <= s < NUM_CODE_LENGTH_CODES ==> freqs[s] == ItemCount(its, s, |its|)
  {
    seq(NUM_CODE_LENGTH_CODES, s requires 0 <= s < NUM_CODE_LENGTH_CODES => ItemCount(its, s, |its|))
  }

  lemma LengthTreeIsBest(its: seq<LengthItem>, cl: seq<nat>, freqs: seq<nat>)
    requires |freqs| == NUM_CODE_LENGTH_CODES == |cl|
    requires forall s :: 0 <= s < NUM_CODE_LENGTH_CODES ==> freqs[s] == ItemCount(its, s, |its|)
    requires C.Optimal(cl, freqs[..|cl|], 7)
    ensures BestLengthTree(its, cl)
  {
    hide C.Optimal, ItemCount;
    assert freqs[..|cl|] == ItemCounts(its);
  }

  lemma NoMoreLengths(lens: seq<nat>, freqs: seq<nat>)
    requires CompleteFor(lens, freqs, 7)
    ensures |lens| <= |freqs|
  {
  }

  /** Trims unused code lengths at the end of their order; at least four are kept. */
  method TrimLengths(cl: seq<nat>) returns (n: nat)
    requires |cl| == NUM_CODE_LENGTH_CODES && forall s :: 0 <= s < NUM_CODE_LENGTH_CODES ==> cl[s] <= 7
    ensures 4 <= n <= NUM_CODE_LENGTH_CODES && ClOk(cl, n)
    ensures n == 4 || (ClIndex(n - 1); cl[CLCL_ORDER[n - 1]] > 0)
  {
    hide CLCL_ORDER;
    ClIndex(0);
    n := NUM_CODE_LENGTH_CODES;
    while n > 4 && (ClIndex(n - 1); cl[CLCL_ORDER[n - 1]]) == 0
      invariant 4 <= n <= NUM_CODE_LENGTH_CODES && |CLCL_ORDER| == NUM_CODE_LENGTH_CODES
      invariant forall i :: n <= i < NUM_CODE_LENGTH_CODES ==> CLCL_ORDER[i] < |cl| && cl[CLCL_ORDER[i]] == 0
    {
      ClIndex(n - 1);
      n := n - 1;
    }
  }

  // ---------- writing ----------

  /** Three bits for each code length code length. */
  method WriteLengthLengths(writer: BitWriter, cl: seq<nat>, n: nat)
    requires writer.Valid() && |cl| == NUM_CODE_LENGTH_CODES && n <= NUM_CODE_LENGTH_CODES
    modifies writer, writer.out
    ensures writer.Valid() && writer.Bits() == old(writer.Bits()) + ClBits(cl, n)
  {
    hide CLCL_ORDER, ToLE, Window;
    ghost var w := writer.Bits();
    AppendNothing(w);
    var i := 0;
    while i != n
      invariant i <= n && writer.Valid() && writer.Bits() == w + ClBits(cl, i)
    {
      ClIndex(i);
      AppendMore(w, ClBits(cl, i), ToLE(cl[CLCL_ORDER[i]], 3));
      writer.WriteBits(cl[CLCL_ORDER[i]], 3);
      i := i + 1;
    }
  }

  /** What the writer finds at item k. */
  lemma ItemInPlace(its: seq<LengthItem>, k: nat, e: seq<nat>, i: nat)
    requires AllItemsOk(its) && k <= |its| && e == AllItemCodes(its) && i == |AllItemCodes(its[..k])| < |e|
    ensures k < |its| && ItemOk(its[k], 1) && e[i] == ItemSymbol(its[k]) && AllItemsOk(its[..k + 1])
    ensures i + (if e[i] >= 16 then 2 else 1) == |AllItemCodes(its[..k + 1])| <= |e|
    ensures e[i] >= 16 ==>
              ItemExtra(its[k]) == ToLE(e[i + 1], if e[i] == 16 then 2 else if e[i] == 17 then 3 else 7)
    ensures e[i] < 16 ==> ItemExtra(its[k]) == []
  {
    hide AllItemCodes, ToLE;
    NotAllItems(its, k);
    ItemCodesAt(its, k);
    var cs := ItemCodes(its[k]);
    assert e[i..i + |cs|][0] == e[i];
    if |cs| == 2 {
      assert e[i..i + 2][1] == e[i + 1];
    }
  }

  /** Writes the symbol at i, and its count. */
  method WriteItem(writer: BitWriter, e: seq<nat>, i: nat, tree: HuffmanTree, ghost it: LengthItem, ghost cl: seq<nat>)
    returns (next: nat)
    requires writer.Valid() && tree.Ready(cl) && ItemOk(it, 1) && ItemCoded(it, cl)
    requires i < |e| && e[i] == ItemSymbol(it) && (e[i] >= 16 ==> i + 1 < |e|)
    requires e[i] >= 16 ==> ItemExtra(it) == ToLE(e[i + 1], if e[i] == 16 then 2 else if e[i] == 17 then 3 else 7)
    requires e[i] < 16 ==> ItemExtra(it) == []
    modifies writer, writer.out
    ensures writer.Valid() && writer.Bits() == old(writer.Bits()) + ItemBits(it, cl)
    ensures next == i + if e[i] >= 16 then 2 else 1
  {
    hide ToLE, Window, CodeBits, ItemExtra, Accepted, CodesFor, Decodes;
    ghost var w := writer.Bits();
    AppendMore(w, CodeBits(cl, ItemSymbol(it)), ItemExtra(it));
    AppendNothing(w + CodeBits(cl, ItemSymbol(it)));
    WriteSymbol(writer, tree, e[i], cl);
    next := i;
    if e[i] == 16 {
      next := next + 1;
      writer.WriteBits(e[next], 2);
    } else if e[i] == 17 {
      next := next + 1;
      writer.WriteBits(e[next], 3);
    } else if e[i] == 18 {
      next := next + 1;
      writer.WriteBits(e[next], 7);
    }
    next := next + 1;
  }

  lemma ItemsBitsStep(its: seq<LengthItem>, k: nat, cl: seq<nat>)
    requires AllItemsCoded(its, cl) && k < |its|
    ensures AllItemsCoded(its[..k], cl) && AllItemsCoded(its[..k + 1], cl)
    ensures ItemOk(its[k], 1) && ItemCoded(its[k], cl) && ItemSymbol(its[k]) < |cl|
    ensures ItemsBits(its[..k + 1], cl) == ItemsBits(its[..k], cl) + ItemBits(its[k], cl)
  {
    hide ItemBits;
    assert its[..k + 1][..k] == its[..k];
  }

  lemma NoItemsBits(its: seq<LengthItem>, cl: seq<nat>)
    ensures AllItemsCoded(its[..0], cl) && ItemsBits(its[..0], cl) == []
  {
  }

  lemma WholeSequence(its: seq<LengthItem>)
    ensures its[..|its|] == its
  {
  }

  /** Writes the run-length coded lengths. */
  method WriteItems(writer: BitWriter, e: seq<nat>, tree: HuffmanTree, ghost its: seq<LengthItem>, ghost cl: seq<nat>)
    requires writer.Valid() && tree.Ready(cl) && AllItemsCoded(its, cl) && AllItemsOk(its) && e == AllItemCodes(its)
    modifies writer, writer.out
    ensures writer.Valid() && writer.Bits() == old(writer.Bits()) + ItemsBits(its, cl)
  {
    hide AllItemCodes, ItemsBits, ItemBits, ItemCoded, Accepted, CodesFor, Decodes, Window, ItemExtra, ToLE, AllItemsCoded;
    ghost var w := writer.Bits();
    NoItemCodes(its);
    NoItemsBits(its, cl);
    AppendNothing(w);
    var i := 0;
    ghost var k := 0;
    while i != |e|
      invariant k <= |its| && i == |AllItemCodes(its[..k])| <= |e|
      invariant AllItemsCoded(its[..k], cl)
      invariant writer.Valid() && writer.Bits() == w + ItemsBits(its[..k], cl)
      decreases |e| - i
    {
      ItemInPlace(its, k, e, i);
      ItemsBitsStep(its, k, cl);
      AppendMore(w, ItemsBits(its[..k], cl), ItemBits(its[k], cl));
      i := WriteItem(writer, e, i, tree, its[k], cl);
      k := k + 1;
    }
    AllItemsCounted(its, k);
    WholeSequence(its);
  }

  /** Writes the whole header behind the block type. */
  method WriteHeader(writer: BitWriter, hlit: nat, hdist: nat, hclen: nat, e: seq<nat>, tree: HuffmanTree, ghost h: Header)
    requires writer.Valid() && tree.Ready(h.cl) && HeaderOk(h) && hlit == h.hlit && hdist == h.hdist && hclen == h.hclen
    requires AllItemsOk(h.items) && e == AllItemCodes(h.items)
    modifies writer, writer.out
    ensures writer.Valid() && writer.Bits() == old(writer.Bits()) + HeaderBits(h)
  {
    hide AllItemCodes, ItemsBits, Accepted, CodesFor, Decodes, Window, ToLE, AllItemsCoded, ClBits, ItemsOk, ClOk,
         ItemsLengths;
    ClLength(h.cl, h.hclen);
    ghost var w := writer.Bits();
    writer.WriteBits(hlit - 257, 5);
    writer.WriteBits(hdist - 1, 5);
    writer.WriteBits(hclen - 4, 4);
    WriteLengthLengths(writer, tree.lengths, hclen);
    WriteItems(writer, e, tree, h.items, h.cl);
    AppendFive(w, ToLE(hlit - 257, 5), ToLE(hdist - 1, 5), ToLE(hclen - 4, 4), ClBits(h.cl, hclen),
               ItemsBits(h.items, h.cl));
  }

  lemma ClLength(cl: seq<nat>, n: nat)
    requires ClOk(cl, n)
    ensures |cl| == NUM_CODE_LENGTH_CODES
  {
  }

  lemma AppendFive(w: seq<bit>, a: seq<bit>, b: seq<bit>, c: seq<bit>, d: seq<bit>, e: seq<bit>)
    ensures ((((w + a) + b) + c) + d) + e == w + (((a + b + c) + d) + e)
  {
  }

  /** The header of the encoder's trees gives them back, padded. */
  lemma EncoderHeader(llens: seq<nat>, dlens: seq<nat>, hclen: nat, cl: seq<nat>, its: seq<LengthItem>)
    requires 257 <= |llens| <= 286 && 1 <= |dlens| <= 30 && EncoderTree(llens, 286) && EncoderTree(dlens, 30)
    requires 4 <= hclen <= 19 && ClOk(cl, hclen) && ValidLengths(cl) && Accepted(cl)
    requires ItemsOk(its) && AllItemsCoded(its, cl) && ItemsLengths(its) == llens + dlens
    ensures var h := Header(|llens|, |dlens|, hclen, cl, its);
            && HeaderOk(h) && HeaderLL(h) == Pad(llens, 288) && HeaderDL(h) == Pad(dlens, 32)
            && Trees(HeaderLL(h), HeaderDL(h))
  {
    hide Accepted, ItemsOk, AllItemsCoded, ItemsLengths, ClOk, Pad, Kraft, ValidLengths;
    PadAccepted(llens, 288);
    PadAccepted(dlens, 32);
    assert (llens + dlens)[..|llens|] == llens && (llens + dlens)[|llens|..] == dlens;
  }
}
