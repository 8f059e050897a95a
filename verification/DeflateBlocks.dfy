/**
 Deflate blocks: each method appends the bits of one block that stands for exactly the input bytes
 it was given.
 */
module DeflateBlocks {
  import opened Bits
  import opened Canonical
  import opened DecodeTables
  import opened HuffmanTrees
  import opened BitWriters
  import opened Lz77
  import opened LzHashes
  import opened LzEncode
  import opened InflateSpec
  import opened FixedTrees
  import opened DeflateFormat
  import opened DeflateStream
  import opened RunLengths
  import opened EncoderTrees
  import opened DeflateWrite
  import opened DynamicHeaders
  import C = CodeLengths

  datatype CompressSettings = CompressSettings(btype: nat, useLz77: bool, windowsize: nat,
                                               minmatch: nat, nicematch: nat, lazymatching: bool)

  /** What the LZ77 encoder says of the window size. */
  predicate WindowRefused(settings: CompressSettings, error: nat)
  {
    error == if !settings.useLz77 then 0
             else if settings.windowsize == 0 || settings.windowsize > 32768 then 60
             else if !LegalWindow(settings.windowsize) then 90
             else 0
  }

  /** The hash is ready to encode data from position n on, if it is going to be used at all. */
  ghost predicate HashReady(hash: Hash, data: seq<byte>, n: nat, settings: CompressSettings)
    reads hash, hash.head, hash.chain, hash.val, hash.headz, hash.chainz, hash.zeros
  {
    settings.useLz77 && LegalWindow(settings.windowsize) ==>
      hash.Valid(data, n) && hash.windowsize == settings.windowsize && Chained(hash.Holds(), n, -1, -1)
  }

  // ---------- literals only ----------

  ghost function LiteralTokens(data: seq<byte>, a: nat, b: nat): (ts: seq<Token>)
    requires a <= b <= |data|
    ensures |ts| == b - a && forall i :: 0 <= i < |ts| ==> ts[i] == Literal(data[a + i])
  {
    seq(b - a, i requires 0 <= i < b - a => Literal(data[a + i]))
  }

  lemma {:induction false} LiteralsEncoded(data: seq<byte>, a: nat, b: nat)
    requires a <= b <= |data|
    ensures Encoded(data[a..b], LiteralTokens(data, a, b), data, a, b)
    decreases b
  {
    hide Encoded;
    if a == b {
      assert data[a..b] == [] && LiteralTokens(data, a, b) == [];
      NothingEncoded(data, a);
    } else {
      LiteralsEncoded(data, a, b - 1);
      EncodedLiteral(data[a..b - 1], LiteralTokens(data, a, b - 1), data, a, b - 1);
      assert data[a..b] == data[a..b - 1] + [data[b - 1]];
      assert LiteralTokens(data, a, b) == LiteralTokens(data, a, b - 1) + [Literal(data[b - 1])];
    }
  }

  /** The tokens that the settings ask for: literals alone, or what the searches choose. */
  ghost predicate TokensFor(ts: seq<Token>, data: seq<byte>, a: nat, b: nat, settings: CompressSettings)
  {
    a <= b <= |data| &&
    if settings.useLz77 then
      exists choices :: Chosen(CodingFor(data, a, b, settings), choices, ts)
    else ts == LiteralTokens(data, a, b)
  }

  function CodingFor(data: seq<byte>, a: nat, b: nat, settings: CompressSettings): Coding
  {
    Coding(data, a, b, settings.windowsize, settings.minmatch, settings.nicematch, settings.lazymatching)
  }

  lemma TokensChosen(ts: seq<Token>, choices: seq<Choice>, data: seq<byte>, a: nat, b: nat, settings: CompressSettings)
    requires a <= b <= |data| && settings.useLz77 && Chosen(CodingFor(data, a, b, settings), choices, ts)
    ensures TokensFor(ts, data, a, b, settings)
  {
    hide Chosen;
  }

  /** No trees for these tokens and the end code take fewer bits. */
  ghost predicate BestTrees(llens: seq<nat>, dlens: seq<nat>, ts: seq<Token>)
  {
    exists ll, d :: Frequencies(ll, d, ts, |ts|) && BestFor(llens, dlens, ll, d)
  }

  ghost predicate BestFor(llens: seq<nat>, dlens: seq<nat>, ll: seq<nat>, d: seq<nat>)
  {
    && END_CODE < |ll| && |llens| <= |ll| && |dlens| <= |d|
    && C.Optimal(llens, ll[END_CODE := 1][..|llens|], 15) && C.Optimal(dlens, d[..|dlens|], 15)
  }

  /** A block of the kind that the settings ask for, with the tokens and trees for data[a..b]. */
  ghost predicate Asked(block: BlockData, data: seq<byte>, a: nat, b: nat, settings: CompressSettings)
  {
    match block
    case Stored(bytes) => settings.btype == 0 && a <= b <= |data| && bytes == data[a..b]
    case Fixed(ts) => settings.btype == 1 && TokensFor(ts, data, a, b, settings)
    case Dynamic(h, ts) =>
      && settings.btype == 2 && TokensFor(ts, data, a, b, settings)
      && HeaderOk(h) && h.hdist <= 32 && BestTrees(HeaderLL(h)[..h.hlit], HeaderDL(h)[..h.hdist], ts)
      && ShortHeader(h)
  }

  /** The header takes no more room than it must: runs are stored as runs, the tree for them takes the fewest bits,
      and no length of it is stored behind the last one in use. */
  ghost predicate ShortHeader(h: Header)
  {
    && Compact(h.items) && BestLengthTree(h.items, h.cl)
    && |CLCL_ORDER| == NUM_CODE_LENGTH_CODES && 4 <= h.hclen <= NUM_CODE_LENGTH_CODES
    && (h.hclen == 4 || (CLCL_ORDER[h.hclen - 1] < |h.cl| && h.cl[CLCL_ORDER[h.hclen - 1]] > 0))
  }

  /** The numbers of one block, with or without LZ77. */
  method EncodeBlock(hash: Hash, data: seq<byte>, datapos: nat, dataend: nat, settings: CompressSettings)
    returns (error: nat, codes: seq<nat>, ghost ts: seq<Token>)
    requires datapos <= dataend <= |data| && HashReady(hash, data, datapos, settings)
    modifies hash, hash.head, hash.chain, hash.val, hash.headz, hash.chainz, hash.zeros
    ensures WindowRefused(settings, error)
    ensures error == 0 ==> Encoded(codes, ts, data, datapos, dataend) && HashReady(hash, data, dataend, settings)
    ensures error == 0 ==> TokensFor(ts, data, datapos, dataend, settings)
  {
    hide Encoded, Chosen, Chained, TokensFor;
    if settings.useLz77 {
      ghost var choices;
      error, codes, ts, choices := EncodeLZ77(hash, data, datapos, dataend, settings.windowsize, settings.minmatch,
                                              settings.nicematch, settings.lazymatching);
      if error == 0 {
        TokensChosen(ts, choices, data, datapos, dataend, settings);
      }
    } else {
      error := 0;
      codes := data[datapos..dataend];
      ts := LiteralTokens(data, datapos, dataend);
      LiteralsEncoded(data, datapos, dataend);
      LiteralsAsked(data, datapos, dataend, settings);
    }
  }

  lemma LiteralsAsked(data: seq<byte>, a: nat, b: nat, settings: CompressSettings)
    requires a <= b <= |data| && !settings.useLz77
    ensures TokensFor(LiteralTokens(data, a, b), data, a, b, settings)
  {
  }

  // ---------- what a block stands for ----------

  /** The block may stand after the first a bytes, and gives those up to b. */
  ghost predicate Covers(block: BlockData, data: seq<byte>, a: nat, b: nat)
  {
    a <= b <= |data| && BlockOk(block, a) && ExpandBlock(block, data[..a]) == data[..b]
  }

  lemma FixedCovers(codes: seq<nat>, ts: seq<Token>, data: seq<byte>, a: nat, b: nat)
    requires Encoded(codes, ts, data, a, b)
    ensures Coded(ts) && codes == AllCodes(ts) && Covers(Fixed(ts), data, a, b)
  {
  }

  lemma DynamicCovers(h: Header, codes: seq<nat>, ts: seq<Token>, data: seq<byte>, a: nat, b: nat)
    requires Encoded(codes, ts, data, a, b)
    requires HeaderOk(h) && Trees(HeaderLL(h), HeaderDL(h)) && HeaderLL(h)[END_CODE] > 0
    requires AllHaveCodes(ts, HeaderLL(h), HeaderDL(h))
    ensures Covers(Dynamic(h, ts), data, a, b)
  {
    hide HeaderOk, Trees, Coded, AllFit, Expand, HeaderLL, HeaderDL, AllHaveCodes;
  }

  lemma BlockOkSomewhere(block: BlockData, data: seq<byte>, a: nat, b: nat)
    requires Covers(block, data, a, b)
    ensures exists n :: BlockOk(block, n)
  {
    hide BlockOk;
  }

  // ---------- dynamic blocks ----------

  /** Trees for one block's tokens. */
  method MakeTrees(codes: seq<nat>, ghost ts: seq<Token>)
    returns (error: nat, treeLL: HuffmanTree, treeD: HuffmanTree)
    requires Coded(ts) && codes == AllCodes(ts)
    ensures fresh(treeLL) && fresh(treeD) && error == 0
    ensures treeLL.Ready(treeLL.lengths) && treeD.Ready(treeD.lengths)
    ensures 257 <= |treeLL.lengths| <= 286 && 2 <= |treeD.lengths| <= 30
    ensures EncoderTree(treeLL.lengths, 286) && EncoderTree(treeD.lengths, 30) && Present(treeLL.lengths, END_CODE)
    ensures AllHaveCodes(ts, Pad(treeLL.lengths, 288), Pad(treeD.lengths, 32))
    ensures BestTrees(treeLL.lengths, treeD.lengths, ts)
  {
    hide AllCodes, Frequencies, Coded, Accepted, CodesFor, Decodes, CompleteFor, Pow2, EncoderTree, AllHaveCodes,
         Kraft, Pad, BestTrees, C.Optimal;
    ghost var ll0;
    var ll, d := CountTokens(codes, ts);
    FrequencySizes(ll, d, ts, |ts|);
    ll0 := ll;
    ll := ll[END_CODE := 1];
    ManyCodes();
    treeLL, treeD := NewTrees();
    error := MakeFromFrequencies(treeLL, ll, 257, 15);
    error := MakeFromFrequencies(treeD, d, 2, 15);
    CompleteSize(treeLL.lengths, ll);
    CompleteSize(treeD.lengths, d);
    TreesHaveCodes(ll0, d, ts, ll, treeLL.lengths, treeD.lengths);
    TreesAreBest(treeLL.lengths, treeD.lengths, ll0, d, ts);
  }

  lemma TreesAreBest(llens: seq<nat>, dlens: seq<nat>, ll: seq<nat>, d: seq<nat>, ts: seq<Token>)
    requires Frequencies(ll, d, ts, |ts|) && BestFor(llens, dlens, ll, d)
    ensures BestTrees(llens, dlens, ts)
  {
    hide Frequencies, BestFor;
  }

  method NewTrees() returns (a: HuffmanTree, b: HuffmanTree)
    ensures fresh(a) && fresh(b) && a != b
  {
    a := new HuffmanTree();
    b := new HuffmanTree();
  }

  lemma ManyCodes()
    ensures Pow2(15) >= 286
  {
    FullIsPow2();
  }

  lemma CompleteSize(lens: seq<nat>, freqs: seq<nat>)
    requires CompleteFor(lens, freqs, 15)
    ensures |lens| <= |freqs|
  {
  }

  lemma EncoderTreeLengths(lens: seq<nat>, n: nat)
    requires EncoderTree(lens, n)
    ensures forall i :: 0 <= i < |lens| ==> lens[i] <= 15
  {
  }

  lemma OneBitNumber(b: bit)
    ensures ToLE(b, 1) == [b]
  {
    assert ToLE(b / 2, 0) == [];
  }

  lemma HeaderOfBlock(w: seq<bit>, final: bit, x: bit, y: bit)
    ensures ((w + ToLE(final, 1)) + ToLE(x, 1)) + ToLE(y, 1) == w + ([final] + [x, y])
  {
    OneBitNumber(final);
    OneBitNumber(x);
    OneBitNumber(y);
  }

  /** Three bits: whether the block is the last one, and its type. */
  method WriteBlockType(writer: BitWriter, final: bit, x: bit, y: bit)
    requires writer.Valid()
    modifies writer, writer.out
    ensures writer.Valid() && writer.Bits() == old(writer.Bits()) + ([final] + [x, y])
  {
    hide ToLE, Window;
    HeaderOfBlock(writer.Bits(), final, x, y);
    writer.WriteBits(final, 1);
    writer.WriteBits(x, 1);
    writer.WriteBits(y, 1);
  }

  /** Writes the tokens and the end code. */
  method WriteData(writer: BitWriter, codes: seq<nat>, treeLL: HuffmanTree, treeD: HuffmanTree,
                   ghost ts: seq<Token>, ghost llens: seq<nat>, ghost dlens: seq<nat>)
    returns (error: nat)
    requires writer.Valid() && treeLL.Ready(llens) && treeD.Ready(dlens) && |llens| <= 288 && |dlens| <= 32
    requires Coded(ts) && codes == AllCodes(ts) && AllHaveCodes(ts, Pad(llens, 288), Pad(dlens, 32))
    requires Present(llens, END_CODE)
    modifies writer, writer.out
    ensures error == 0 && writer.Valid()
    ensures writer.Bits() == old(writer.Bits()) + DataBits(ts, Pad(llens, 288), Pad(dlens, 32))
  {
    hide AllCodes, Coded, Accepted, CodesFor, Decodes, AllHaveCodes, TokensBits, CodeBits, Window;
    ghost var w := writer.Bits();
    WriteLZ77Data(writer, codes, treeLL, treeD, ts, llens, dlens);
    if treeLL.lengths[END_CODE] == 0 {
      assert false; // error 64 is never reported
    }
    AppendMore(w, TokensBits(ts, Pad(llens, 288), Pad(dlens, 32)), CodeBits(Pad(llens, 288), END_CODE));
    WritePadded(writer, treeLL, END_CODE, llens, 288);
    error := 0;
  }

  lemma DynamicBits(w: seq<bit>, final: bit, h: Header, ts: seq<Token>, n: nat)
    requires BlockOk(Dynamic(h, ts), n)
    ensures ((w + ([final] + [0, 1])) + HeaderBits(h)) + DataBits(ts, HeaderLL(h), HeaderDL(h))
         == w + BlockBits(Dynamic(h, ts), final, |w|)
  {
    hide HeaderOk, Trees, Coded, AllFit, HeaderLL, HeaderDL, AllHaveCodes, HeaderBits, DataBits;
    AppendMore(w + ([final] + [0, 1]), HeaderBits(h), DataBits(ts, HeaderLL(h), HeaderDL(h)));
    AppendMore(w, [final] + [0, 1], HeaderBits(h) + DataBits(ts, HeaderLL(h), HeaderDL(h)));
  }

  /** Writes a block with trees of its own. */
  method WriteDynamic(writer: BitWriter, codes: seq<nat>, final: bit, ghost ts: seq<Token>,
                      ghost data: seq<byte>, ghost datapos: nat, ghost dataend: nat, ghost settings: CompressSettings)
    returns (error: nat, ghost block: BlockData)
    requires writer.Valid() && Encoded(codes, ts, data, datapos, dataend)
    requires settings.btype == 2 && TokensFor(ts, data, datapos, dataend, settings)
    modifies writer, writer.out
    ensures writer.Valid() && error == 0 && Covers(block, data, datapos, dataend) && block.Dynamic?
    ensures Asked(block, data, datapos, dataend, settings)
    ensures exists n :: BlockOk(block, n)
    ensures writer.Bits() == old(writer.Bits()) + BlockBits(block, final, |old(writer.Bits())|)
  {
    hide Encoded, Accepted, CodesFor, Decodes, AllCodes, AllHaveCodes, EncoderTree, Covers, BlockOk, BlockBits, Window,
         ItemsOk, AllItemsOk, AllItemCodes, ItemsLengths, AllItemsCoded, ClOk, Pad, HeaderOk, HeaderBits, HeaderLL,
         HeaderDL, Trees, DataBits, Coded, BestTrees, TokensFor, Asked, ShortHeader;
    ghost var w := writer.Bits();
    FixedCovers(codes, ts, data, datapos, dataend);
    var treeLL, treeD;
    error, treeLL, treeD := MakeTrees(codes, ts);
    ghost var llens, dlens := treeLL.lengths, treeD.lengths;
    var e, treeCL, hclen;
    ghost var its;
    error, e, its, treeCL, hclen := MakeHeader(treeLL, treeD);
    ghost var h := Header(|llens|, |dlens|, hclen, treeCL.lengths, its);
    EndCodePadded(llens);
    DynamicCovers(h, codes, ts, data, datapos, dataend);
    DynamicAsked(h, llens, dlens, ts, data, datapos, dataend, settings);
    block := Dynamic(h, ts);
    BlockOkSomewhere(block, data, datapos, dataend);
    CoversOk(block, data, datapos, dataend);
    DynamicBits(w, final, h, ts, datapos);
    WriteBlockType(writer, final, 0, 1);
    WriteHeader(writer, |treeLL.lengths|, |treeD.lengths|, hclen, e, treeCL, h);
    error := WriteData(writer, codes, treeLL, treeD, ts, llens, dlens);
  }

  lemma DynamicAsked(h: Header, llens: seq<nat>, dlens: seq<nat>, ts: seq<Token>, data: seq<byte>, a: nat, b: nat,
                     settings: CompressSettings)
    requires settings.btype == 2 && TokensFor(ts, data, a, b, settings) && BestTrees(llens, dlens, ts)
    requires HeaderOk(h) && h.hlit == |llens| <= 288 && h.hdist == |dlens| <= 32
    requires HeaderLL(h) == Pad(llens, 288) && HeaderDL(h) == Pad(dlens, 32) && ShortHeader(h)
    ensures Asked(Dynamic(h, ts), data, a, b, settings)
  {
    hide HeaderOk, HeaderLL, HeaderDL, TokensFor, BestTrees, ShortHeader;
    assert Pad(llens, 288)[..|llens|] == llens && Pad(dlens, 32)[..|dlens|] == dlens;
  }

  lemma CoversOk(block: BlockData, data: seq<byte>, a: nat, b: nat)
    requires Covers(block, data, a, b)
    ensures BlockOk(block, a)
  {
  }

  lemma EndCodePadded(lens: seq<nat>)
    requires Present(lens, END_CODE) && |lens| <= 288
    ensures Pad(lens, 288)[END_CODE] > 0
  {
  }

  /** Both lists of lengths, run-length coded, and the tree for that. */
  method MakeHeader(treeLL: HuffmanTree, treeD: HuffmanTree)
    returns (error: nat, e: seq<nat>, ghost its: seq<LengthItem>, treeCL: HuffmanTree, hclen: nat)
    requires 257 <= |treeLL.lengths| <= 286 && 1 <= |treeD.lengths| <= 30
    requires EncoderTree(treeLL.lengths, 286) && EncoderTree(treeD.lengths, 30)
    ensures error == 0 && fresh(treeCL) && treeCL.Ready(treeCL.lengths)
    ensures AllItemsOk(its) && e == AllItemCodes(its)
    ensures var h := Header(|treeLL.lengths|, |treeD.lengths|, hclen, treeCL.lengths, its);
            && HeaderOk(h) && HeaderLL(h) == Pad(treeLL.lengths, 288) && HeaderDL(h) == Pad(treeD.lengths, 32)
            && Trees(HeaderLL(h), HeaderDL(h)) && ShortHeader(h)
  {
    hide Compact, BestLengthTree, Accepted, CodesFor, Decodes, EncoderTree, ItemsOk, AllItemsOk, AllItemCodes, ItemsLengths, AllItemsCoded,
         ClOk, Pad, HeaderOk, HeaderLL, HeaderDL, Trees, CLCL_ORDER;
    EncoderTreeLengths(treeLL.lengths, 286);
    EncoderTreeLengths(treeD.lengths, 30);
    error, e, its, treeCL := MakeLengthTree(treeLL.lengths + treeD.lengths);
    hclen := TrimLengths(treeCL.lengths);
    LastInUse(treeCL.lengths, hclen);
    EncoderHeader(treeLL.lengths, treeD.lengths, hclen, treeCL.lengths, its);
  }

  lemma LastInUse(cl: seq<nat>, n: nat)
    requires 4 <= n <= NUM_CODE_LENGTH_CODES == |cl| && (n == 4 || (ClIndex(n - 1); cl[CLCL_ORDER[n - 1]] > 0))
    ensures |CLCL_ORDER| == NUM_CODE_LENGTH_CODES
    ensures n == 4 || (CLCL_ORDER[n - 1] < |cl| && cl[CLCL_ORDER[n - 1]] > 0)
  {
    ClIndex(n - 1);
  }

  /** A dynamic block for data[datapos..dataend]. */
  method DeflateDynamic(writer: BitWriter, hash: Hash, data: seq<byte>, datapos: nat, dataend: nat,
                        settings: CompressSettings, final: bit)
    returns (error: nat, ghost block: BlockData)
    requires writer.Valid() && datapos <= dataend <= |data| && HashReady(hash, data, datapos, settings) && settings.btype == 2
    modifies writer, writer.out, hash, hash.head, hash.chain, hash.val, hash.headz, hash.chainz, hash.zeros
    ensures writer.Valid() && WindowRefused(settings, error)
    ensures error == 0 ==> HashReady(hash, data, dataend, settings) && Covers(block, data, datapos, dataend) && block.Dynamic?
    ensures error == 0 ==> Asked(block, data, datapos, dataend, settings)
    ensures error == 0 ==>
              (exists n :: BlockOk(block, n))
              && writer.Bits() == old(writer.Bits()) + BlockBits(block, final, |old(writer.Bits())|)
  {
    hide Encoded, Covers, BlockOk, BlockBits, Window, Asked, TokensFor;
    var codes;
    ghost var ts;
    block := Stored([]);
    error, codes, ts := EncodeBlock(hash, data, datapos, dataend, settings);
    if error != 0 {
      return;
    }
    error, block := WriteDynamic(writer, codes, final, ts, data, datapos, dataend, settings);
  }

  // ---------- fixed blocks ----------

  lemma FixedTreeSizes()
    ensures Pad(FixedLitLen(), 288) == FixedLitLen() && Pad(FixedDistance(), 32) == FixedDistance()
    ensures Present(FixedLitLen(), END_CODE)
  {
  }

  lemma FixedBits(w: seq<bit>, final: bit, ts: seq<Token>, n: nat)
    requires BlockOk(Fixed(ts), n)
    ensures ((w + ([final] + [1, 0])) + TokensBits(ts, FixedLitLen(), FixedDistance())) + CodeBits(FixedLitLen(), END_CODE)
         == w + BlockBits(Fixed(ts), final, |w|)
  {
    hide Coded, AllFit, FixedLitLen, FixedDistance, TokensBits, CodeBits;
    var a, b := TokensBits(ts, FixedLitLen(), FixedDistance()), CodeBits(FixedLitLen(), END_CODE);
    AppendMore(w + ([final] + [1, 0]), a, b);
    AppendMore(w, [final] + [1, 0], a + b);
  }

  lemma LiteralTokensStep(data: seq<byte>, a: nat, b: nat, ll: seq<nat>, dl: seq<nat>)
    requires a <= b < |data| && |ll| == 288 && |dl| == 32
    ensures Coded(LiteralTokens(data, a, b)) && Coded(LiteralTokens(data, a, b + 1))
    ensures TokensBits(LiteralTokens(data, a, b + 1), ll, dl)
         == TokensBits(LiteralTokens(data, a, b), ll, dl) + CodeBits(ll, data[b])
  {
    hide CodeBits;
    var ts := LiteralTokens(data, a, b + 1);
    assert ts[..b - a] == LiteralTokens(data, a, b);
  }

  lemma NoLiterals(data: seq<byte>, a: nat, ll: seq<nat>, dl: seq<nat>)
    requires a <= |data| && |ll| == 288 && |dl| == 32
    ensures Coded(LiteralTokens(data, a, a)) && TokensBits(LiteralTokens(data, a, a), ll, dl) == []
  {
  }

  lemma FixedLengthsPositive(s: nat)
    requires s < 288
    ensures FixedLitLen()[s] > 0
  {
    FixedLitLenAccepted();
  }

  /** Without LZ77: every byte as a literal. */
  method WriteLiterals(writer: BitWriter, tree: HuffmanTree, data: seq<byte>, datapos: nat, dataend: nat)
    requires writer.Valid() && tree.Ready(FixedLitLen()) && datapos <= dataend <= |data|
    modifies writer, writer.out
    ensures writer.Valid() && Coded(LiteralTokens(data, datapos, dataend))
    ensures writer.Bits() == old(writer.Bits())
                             + TokensBits(LiteralTokens(data, datapos, dataend), FixedLitLen(), FixedDistance())
  {
    hide FixedLitLen, FixedDistance, Accepted, CodesFor, Decodes, TokensBits, CodeBits, Window, Coded, LiteralTokens;
    ghost var w := writer.Bits();
    NoLiterals(data, datapos, FixedLitLen(), FixedDistance());
    AppendNothing(w);
    var i := datapos;
    while i < dataend
      invariant datapos <= i <= dataend && writer.Valid() && Coded(LiteralTokens(data, datapos, i))
      invariant writer.Bits() == w + TokensBits(LiteralTokens(data, datapos, i), FixedLitLen(), FixedDistance())
    {
      LiteralTokensStep(data, datapos, i, FixedLitLen(), FixedDistance());
      AppendMore(w, TokensBits(LiteralTokens(data, datapos, i), FixedLitLen(), FixedDistance()),
                 CodeBits(FixedLitLen(), data[i]));
      FixedLengthsPositive(data[i]);
      WriteSymbol(writer, tree, data[i], FixedLitLen());
      i := i + 1;
    }
  }

  /** Tokens for a fixed block, as asked for. */
  ghost predicate FixedTokens(ts: seq<Token>, data: seq<byte>, a: nat, b: nat, settings: CompressSettings)
  {
    Coded(ts) && Covers(Fixed(ts), data, a, b) && TokensFor(ts, data, a, b, settings)
  }

  /** The data of a fixed block, with or without LZ77. */
  method WriteFixedData(writer: BitWriter, hash: Hash, data: seq<byte>, datapos: nat, dataend: nat,
                        settings: CompressSettings, treeLL: HuffmanTree, treeD: HuffmanTree)
    returns (error: nat, ghost ts: seq<Token>)
    requires writer.Valid() && datapos <= dataend <= |data| && HashReady(hash, data, datapos, settings)
    requires treeLL.Ready(FixedLitLen()) && treeD.Ready(FixedDistance())
    modifies writer, writer.out, hash, hash.head, hash.chain, hash.val, hash.headz, hash.chainz, hash.zeros
    ensures writer.Valid() && WindowRefused(settings, error)
    ensures error == 0 ==> HashReady(hash, data, dataend, settings) && FixedTokens(ts, data, datapos, dataend, settings)
    ensures error == 0 ==> writer.Bits() == old(writer.Bits()) + TokensBits(ts, FixedLitLen(), FixedDistance())
  {
    hide FixedLitLen, FixedDistance, Accepted, CodesFor, Decodes, TokensBits, CodeBits, Window, Coded, LiteralTokens,
         Encoded, Covers, BlockOk, AllCodes, AllHaveCodes, TokensFor, Chosen, Chained, Pad;
    FixedTreeSizes();
    ts := LiteralTokens(data, datapos, dataend);
    if settings.useLz77 {
      var codes;
      ghost var choices;
      error, codes, ts, choices := EncodeLZ77(hash, data, datapos, dataend, settings.windowsize, settings.minmatch,
                                              settings.nicematch, settings.lazymatching);
      if error != 0 {
        return;
      }
      TokensChosen(ts, choices, data, datapos, dataend, settings);
      FixedCovers(codes, ts, data, datapos, dataend);
      FixedAlwaysHasCodes(ts);
      WriteLZ77Data(writer, codes, treeLL, treeD, ts, FixedLitLen(), FixedDistance());
    } else {
      error := 0;
      LiteralsEncoded(data, datapos, dataend);
      LiteralsAsked(data, datapos, dataend, settings);
      FixedCovers(data[datapos..dataend], ts, data, datapos, dataend);
      WriteLiterals(writer, treeLL, data, datapos, dataend);
    }
  }

  /** A block with the fixed trees for data[datapos..dataend]. */
  method DeflateFixed(writer: BitWriter, hash: Hash, data: seq<byte>, datapos: nat, dataend: nat,
                      settings: CompressSettings, final: bit)
    returns (error: nat, ghost block: BlockData)
    requires writer.Valid() && datapos <= dataend <= |data| && HashReady(hash, data, datapos, settings) && settings.btype == 1
    modifies writer, writer.out, hash, hash.head, hash.chain, hash.val, hash.headz, hash.chainz, hash.zeros
    ensures writer.Valid() && WindowRefused(settings, error)
    ensures error == 0 ==> HashReady(hash, data, dataend, settings) && Covers(block, data, datapos, dataend) && block.Fixed?
    ensures error == 0 ==> Asked(block, data, datapos, dataend, settings)
    ensures error == 0 ==>
              (exists n :: BlockOk(block, n))
              && writer.Bits() == old(writer.Bits()) + BlockBits(block, final, |old(writer.Bits())|)
  {
    hide FixedLitLen, FixedDistance, Accepted, CodesFor, Decodes, TokensBits, CodeBits, Window, Coded,
         Covers, BlockOk, BlockBits, TokensFor, Chained, HashReady, WindowRefused;
    ghost var w := writer.Bits();
    var treeLL, treeD := NewTrees();
    error := GenerateFixedLitLenTree(treeLL);
    error := GenerateFixedDistanceTree(treeD);
    FixedTreeSizes();
    WriteBlockType(writer, final, 1, 0);
    ghost var ts;
    error, ts := WriteFixedData(writer, hash, data, datapos, dataend, settings, treeLL, treeD);
    block := Fixed(ts);
    if error != 0 {
      return;
    }
    CoversOk(block, data, datapos, dataend);
    FixedBits(w, final, ts, datapos);
    WriteSymbol(writer, treeLL, END_CODE, FixedLitLen());
  }
}
