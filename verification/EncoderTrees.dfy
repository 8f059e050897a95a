/**
 The encoder's trees: built from frequencies with trailing unused symbols trimmed. The decoder
 pads the lengths again; that changes neither codes nor Kraft sum.
 */
module EncoderTrees {
  import opened Bits
  import opened Canonical
  import opened PrefixCodes
  import opened DecodeTables
  import opened HuffmanTrees
  import opened BitWriters
  import opened CodeLengths
  import opened InflateSpec
  import opened DeflateFormat

  // ---------- padding ----------

  lemma {:induction false} PadCount(lens: seq<nat>, k: nat, b: nat, n: nat)
    requires n <= |lens| + k && b > 0
    ensures n <= |lens + Repeat(0, k)|
    ensures Count(lens + Repeat(0, k), b, n) == Count(lens, b, if n < |lens| then n else |lens|)
  {
    if n > 0 {
      PadCount(lens, k, b, n - 1);
    }
  }

  lemma {:induction false} PadNextCode(lens: seq<nat>, k: nat, b: nat)
    ensures NextCode(lens + Repeat(0, k), b) == NextCode(lens, b)
  {
    if b > 1 {
      PadNextCode(lens, k, b - 1);
      PadCount(lens, k, b - 1, |lens| + k);
    }
  }

  /** Padding with unused symbols changes no code. */
  lemma PadCodeBits(lens: seq<nat>, n: nat, s: nat)
    requires |lens| <= n && Present(lens, s)
    ensures CodeBits(Pad(lens, n), s) == CodeBits(lens, s)
  {
    var k := n - |lens|;
    PadNextCode(lens, k, lens[s]);
    PadCount(lens, k, lens[s], s);
    assert Pad(lens, n)[s] == lens[s];
  }

  lemma {:induction false} PadKraft(lens: seq<nat>, k: nat, n: nat)
    requires n <= |lens| + k && ValidLengths(lens)
    ensures ValidLengths(lens + Repeat(0, k)) && n <= |lens + Repeat(0, k)|
    ensures KraftTo(lens + Repeat(0, k), n) == KraftTo(lens, if n < |lens| then n else |lens|)
  {
    if n > 0 {
      PadKraft(lens, k, n - 1);
    }
  }

  lemma PadAccepted(lens: seq<nat>, n: nat)
    requires |lens| <= n && ValidLengths(lens) && Kraft(lens) == FULL
    ensures ValidLengths(Pad(lens, n)) && Accepted(Pad(lens, n))
  {
    PadKraft(lens, n - |lens|, n);
  }

  // ---------- trees from frequencies ----------

  /** Every symbol that occurs has a code, within the limit; the Kraft sum is 1. */
  ghost predicate CompleteFor(lens: seq<nat>, freqs: seq<nat>, maxbitlen: nat)
  {
    && |lens| <= |freqs| && maxbitlen <= MAX_BITS
    && (forall i :: 0 <= i < |lens| ==> lens[i] <= maxbitlen)
    && ValidLengths(lens) && Kraft(lens) == FULL
    && (forall s: nat :: s < |freqs| && freqs[s] > 0 ==> Present(lens, s))
  }

  lemma TrimmedComplete(lens: seq<nat>, freqs: seq<nat>, n: nat, maxbitlen: nat)
    requires n <= |freqs| && LengthsFor(lens, freqs[..n], maxbitlen)
    requires forall i :: n <= i < |freqs| ==> freqs[i] == 0
    ensures CompleteFor(lens, freqs, maxbitlen) && |lens| == n && Accepted(lens)
  {
  }

  /** Trims unused symbols at the end, then builds the tree of optimal lengths. */
  method MakeFromFrequencies(tree: HuffmanTree, frequencies: seq<nat>, mincodes: nat, maxbitlen: nat)
    returns (error: nat)
    requires 2 <= mincodes <= |frequencies| <= 512 && 0 < maxbitlen <= MAX_BITS
    modifies tree
    ensures error == 0 || (error == 80 && Pow2(maxbitlen) < |frequencies|)
    ensures error == 0 ==> tree.Ready(tree.lengths) && CompleteFor(tree.lengths, frequencies, maxbitlen)
    ensures error == 0 ==> mincodes <= |tree.lengths| <= |frequencies|
    ensures error == 0 ==> |tree.lengths| == mincodes || frequencies[|tree.lengths| - 1] > 0
    ensures error == 0 ==> Optimal(tree.lengths, frequencies[..|tree.lengths|], maxbitlen)
  {
    hide Accepted, CodesFor, Decodes, CompleteFor, LengthsFor, OnlyOccurring, Pow2, Optimal;
    var numcodes := |frequencies|;
    while frequencies[numcodes - 1] == 0 && numcodes > mincodes
      invariant mincodes <= numcodes <= |frequencies|
      invariant forall i :: numcodes <= i < |frequencies| ==> frequencies[i] == 0
    {
      numcodes := numcodes - 1;
    }
    var lengths;
    error, lengths := HuffmanCodeLengths(frequencies[..numcodes], maxbitlen);
    if error == 0 {
      OptimalSize(lengths, frequencies[..numcodes], maxbitlen);
      TrimmedComplete(lengths, frequencies, numcodes, maxbitlen);
      LengthsWithinLimit(lengths, frequencies, maxbitlen);
      tree.lengths := lengths;
      error := tree.MakeFromLengths2(maxbitlen);
    }
  }

  lemma OptimalSize(lens: seq<nat>, freqs: seq<nat>, maxbitlen: nat)
    requires Optimal(lens, freqs, maxbitlen)
    ensures |lens| == |freqs|
  {
  }

  lemma LengthsWithinLimit(lens: seq<nat>, freqs: seq<nat>, maxbitlen: nat)
    requires CompleteFor(lens, freqs, maxbitlen)
    ensures forall i :: 0 <= i < |lens| ==> lens[i] <= maxbitlen
  {
  }

  /** Writes one symbol of a tree. */
  method WriteSymbol(writer: BitWriter, tree: HuffmanTree, s: nat, ghost lens: seq<nat>)
    requires writer.Valid() && tree.Ready(lens) && Present(lens, s)
    modifies writer, writer.out
    ensures writer.Valid() && writer.Bits() == old(writer.Bits()) + CodeBits(lens, s)
  {
    hide Code, Accepted, Decodes, Window, ToBE, Low;
    ToBELow(Code(lens, s), lens[s]);
    writer.WriteBitsReversed(tree.codes[s], tree.lengths[s]);
  }
}
