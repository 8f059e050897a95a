/**
 Decoding one Huffman symbol from the bit stream: the two table look-ups against the symbol whose
 canonical code the stream continues with.
 */
module DecodeSymbols {
  import opened Bits
  import opened Canonical
  import opened PrefixCodes
  import opened DecodeTables
  import opened HuffmanTrees
  import opened BitReaders

  datatype Option<+T> = None | Some(value: T)

  /** The next 15 stream bits as a number. */
  function StreamWord(data: seq<byte>, pos: nat): (w: nat)
    ensures w < FULL
  {
    FullIsPow2();
    FromLEBound(Window(data, pos, MAX_BITS));
    FromLE(Window(data, pos, MAX_BITS))
  }

  /** The symbol whose code the stream continues with at pos. */
  ghost function NextSymbol(lens: seq<nat>, data: seq<byte>, pos: nat): Option<nat>
  {
    if exists s: nat :: Matches(lens, s, StreamWord(data, pos)) then
      var s: nat :| Matches(lens, s, StreamWord(data, pos)); Some(s)
    else None
  }

  lemma StreamPrefix(data: seq<byte>, pos: nat, n: nat)
    requires n <= MAX_BITS
    ensures FromLE(Window(data, pos, n)) == Low(StreamWord(data, pos), n)
  {
    hide FromLE, Low;
    var ws := Window(data, pos, MAX_BITS);
    assert ws[..n] == Window(data, pos, n);
    LowOfPrefix(ws, n);
  }

  lemma StreamSuffix(data: seq<byte>, pos: nat, n: nat)
    requires n <= 6
    ensures FromLE(Window(data, pos + 9, n)) == Low(Shr(StreamWord(data, pos), 9), n)
  {
    hide FromLE, Low, Shr, Shl, Pow2;
    var ws := Window(data, pos, MAX_BITS);
    WindowSplit(data, pos, 9, 6);
    var lo, hi := Window(data, pos, 9), Window(data, pos + 9, 6);
    FromLEConcat(lo, hi);
    FromLEBound(lo);
    LowHighUnique(FromLE(lo), FromLE(hi), 9);
    assert hi[..n] == Window(data, pos + 9, n);
    LowOfPrefix(hi, n);
  }

  /** The stream continues with the bits of a symbol's code: that symbol is next. */
  lemma WrittenSymbol(lens: seq<nat>, s: nat, data: seq<byte>, pos: nat)
    requires ValidLengths(lens) && Accepted(lens) && Present(lens, s)
    requires Window(data, pos, lens[s]) == ToBE(Code(lens, s), lens[s])
    ensures NextSymbol(lens, data, pos) == Some(s)
  {
    hide FromLE, Low, Code, ToBE, Accepted;
    StreamPrefix(data, pos, lens[s]);
    var w := StreamWord(data, pos);
    assert Matches(lens, s, w);
    var t: nat :| Matches(lens, t, w) && NextSymbol(lens, data, pos) == Some(t);
    AcceptedUnique(lens, s, t, w);
  }

  lemma NextSymbolPresent(lens: seq<nat>, data: seq<byte>, pos: nat)
    ensures NextSymbol(lens, data, pos).Some? ==>
              var s := NextSymbol(lens, data, pos).value; Present(lens, s) && s < |lens|
  {
  }

  /** What the table entry for the stream at pos says. */
  lemma EntryAt(tl: seq<nat>, tv: seq<nat>, lens: seq<nat>, data: seq<byte>, pos: nat)
    requires Decodes(tl, tv, lens) && |lens| <= INVALIDSYMBOL
    ensures var q := LookupEntry(tl, tv, StreamWord(data, pos));
            && tl[q] <= MAX_BITS
            && (tl[HeadOf(StreamWord(data, pos))] > 9 ==> tl[q] > 9)
            && match NextSymbol(lens, data, pos)
               case Some(s) => s < |lens| && tv[q] == s && tl[q] == lens[s] > 0
               case None => tv[q] == INVALIDSYMBOL
  {
    hide Low, Shr, LookupEntry;
    assert DecodesAt(tl, tv, lens, StreamWord(data, pos));
  }

  method HuffmanDecodeSymbol(reader: BitReader, tree: HuffmanTree, ghost lens: seq<nat>) returns (symbol: nat)
    requires reader.Valid() && reader.avail >= MAX_BITS
    requires tree.Ready(lens) && |lens| <= 512
    modifies reader
    ensures reader.Valid()
    ensures old(reader.bp) <= reader.bp <= old(reader.bp) + MAX_BITS
    ensures reader.avail == old(reader.avail) - (reader.bp - old(reader.bp))
    ensures match NextSymbol(lens, reader.data, old(reader.bp))
            case Some(s) => s < |lens| && symbol == s && reader.bp == old(reader.bp) + lens[s] && lens[s] > 0
            case None => symbol == INVALIDSYMBOL
  {
    hide NextSymbol, CodesFor, Accepted, Pow2, Low, Shr;
    ghost var data, pos := reader.data, reader.bp;
    EntryAt(tree.tableLen, tree.tableValue, lens, data, pos);
    StreamPrefix(data, pos, FIRSTBITS);
    var code := reader.PeekBits(FIRSTBITS);
    assert code == HeadOf(StreamWord(data, pos));
    var l, value := tree.tableLen[code], tree.tableValue[code];
    if l <= FIRSTBITS {
      reader.AdvanceBits(l);
      symbol := value;
    } else {
      reader.AdvanceBits(FIRSTBITS);
      StreamSuffix(data, pos, l - FIRSTBITS);
      var index2 := value + reader.PeekBits(l - FIRSTBITS);
      assert index2 == LookupEntry(tree.tableLen, tree.tableValue, StreamWord(data, pos));
      reader.AdvanceBits(tree.tableLen[index2] - FIRSTBITS);
      symbol := tree.tableValue[index2];
    }
  }
}
