/**
 Writing the parts of a compressed block: symbol frequencies, tokens, and the header of a dynamic
 block. Each writer appends exactly the bits that `DeflateFormat` gives its part.
 */
module DeflateWrite {
  import opened Bits
  import opened Canonical
  import opened DecodeTables
  import opened HuffmanTrees
  import opened BitWriters
  import opened Lz77
  import opened InflateSpec
  import opened DeflateFormat
  import opened EncoderTrees

  // ---------- tokens as numbers ----------

  lemma CodesSize(t: Token)
    requires Coded([t])
    ensures [t][0].Match? ==> t.length >= 3 && t.distance >= 1
    ensures var cs := Codes([t][0]); (|cs| == 1 || |cs| == 4) && (|cs| == 4 <==> cs[0] > 256) && (t.Match? <==> |cs| == 4)
    ensures var cs := Codes([t][0]); cs[0] == TokenSymbol(t) && (t.Match? ==> cs[2] == DistanceIndex(t.distance))
  {
    hide LENGTHBASE, DISTANCEBASE;
    assert [t][0] == t;
  }

  /** The literal and length symbol of a token. */
  function TokenSymbol(t: Token): (s: nat)
    ensures s <= LAST_LENGTH_CODE_INDEX && s != END_CODE
  {
    match t
    case Literal(b) => b
    case Match(l, _) => LengthIndex(l) + FIRST_LENGTH_CODE_INDEX
  }

  lemma OneCoded(ts: seq<Token>, k: nat)
    requires Coded(ts) && k < |ts|
    ensures Coded([ts[k]]) && Coded(ts[..k]) && Coded(ts[..k + 1])
  {
  }

  /** Token k is stored behind the tokens before it. */
  lemma {:induction false} TokenCodesAt(ts: seq<Token>, k: nat)
    requires Coded(ts) && k < |ts|
    ensures Coded(ts[..k]) && Coded(ts[..k + 1])
    ensures var p, q := |AllCodes(ts[..k])|, |AllCodes(ts[..k + 1])|;
            p + |Codes(ts[k])| == q <= |AllCodes(ts)| && AllCodes(ts)[p..q] == Codes(ts[k])
  {
    hide Codes;
    OneCoded(ts, k);
    var us := ts[..|ts| - 1];
    if k == |ts| - 1 {
      assert ts[..k] == us && ts[..k + 1] == ts;
    } else {
      TokenCodesAt(us, k);
      assert us[..k] == ts[..k] && us[..k + 1] == ts[..k + 1];
    }
  }

  /** What the writer and the counter find at token k. */
  lemma TokenInPlace(ts: seq<Token>, k: nat, codes: seq<nat>, i: nat)
    requires Coded(ts) && k <= |ts| && codes == AllCodes(ts) && Coded(ts[..k]) && i == |AllCodes(ts[..k])| < |codes|
    ensures k < |ts| && Coded(ts[..k + 1]) && Coded([ts[k]]) && codes[i] == TokenSymbol(ts[k])
    ensures codes[i] > 256 <==> ts[k].Match?
    ensures i + (if codes[i] > 256 then 4 else 1) == |AllCodes(ts[..k + 1])| <= |codes|
    ensures ts[k].Match? ==>
              && ts[k].length >= 3 && ts[k].distance >= 1 && Codes(ts[k]) == codes[i..i + 4]
              && codes[i + 2] == DistanceIndex(ts[k].distance)
  {
    hide Codes, AllCodes, TokenSymbol, DistanceIndex;
    assert ts[..|ts|] == ts;
    TokenCodesAt(ts, k);
    CodesSize(ts[k]);
    var cs := Codes(ts[k]);
    assert codes[i..i + |cs|][0] == codes[i];
    if ts[k].Match? {
      assert codes[i..i + 4][2] == codes[i + 2];
    }
  }

  lemma NoTokenCodes(ts: seq<Token>)
    ensures Coded(ts[..0]) && AllCodes(ts[..0]) == []
  {
  }

  lemma AllTokensDone(ts: seq<Token>, k: nat)
    requires Coded(ts) && k <= |ts| && Coded(ts[..k]) && |AllCodes(ts[..k])| == |AllCodes(ts)|
    ensures k == |ts| && ts[..k] == ts
  {
    hide AllCodes, Codes;
    if k < |ts| {
      TokenCodesAt(ts, k);
      OneCoded(ts, k);
      CodesSize(ts[k]);
    }
  }

  // ---------- frequencies ----------

  function SymbolCount(ts: seq<Token>, s: nat, n: nat): (c: nat)
    requires n <= |ts|
  {
    if n == 0 then 0 else SymbolCount(ts, s, n - 1) + if TokenSymbol(ts[n - 1]) == s then 1 else 0
  }

  function DistanceCount(ts: seq<Token>, s: nat, n: nat): (c: nat)
    requires n <= |ts|
  {
    if n == 0 then 0
    else DistanceCount(ts, s, n - 1)
         + if ts[n - 1].Match? && DistanceIndex(ts[n - 1].distance) == s then 1 else 0
  }

  lemma {:induction false} TokenCounted(ts: seq<Token>, k: nat, n: nat)
    requires k < n <= |ts|
    ensures SymbolCount(ts, TokenSymbol(ts[k]), n) > 0
    ensures ts[k].Match? ==> DistanceCount(ts, DistanceIndex(ts[k].distance), n) > 0
  {
    hide TokenSymbol, DistanceIndex;
    if k < n - 1 {
      TokenCounted(ts, k, n - 1);
    }
  }

  /** The frequencies of the first k tokens. */
  ghost predicate Frequencies(ll: seq<nat>, d: seq<nat>, ts: seq<Token>, k: nat)
  {
    && |ll| == 286 && |d| == 30 && k <= |ts|
    && (forall s :: 0 <= s < 286 ==> ll[s] == SymbolCount(ts, s, k))
    && (forall s :: 0 <= s < 30 ==> d[s] == DistanceCount(ts, s, k))
  }

  lemma CountToken(ll: seq<nat>, d: seq<nat>, ts: seq<Token>, k: nat)
    requires Frequencies(ll, d, ts, k) && k < |ts|
    ensures var s := TokenSymbol(ts[k]);
            Frequencies(ll[s := ll[s] + 1],
                        if ts[k].Match? then d[DistanceIndex(ts[k].distance) := d[DistanceIndex(ts[k].distance)] + 1] else d,
                        ts, k + 1)
  {
    hide TokenSymbol, DistanceIndex;
  }

  /** Counts the symbols of both alphabets. */
  method CountTokens(codes: seq<nat>, ghost ts: seq<Token>) returns (ll: seq<nat>, d: seq<nat>)
    requires Coded(ts) && codes == AllCodes(ts)
    ensures Frequencies(ll, d, ts, |ts|)
  {
    hide AllCodes, TokenSymbol, DistanceIndex, Codes, Coded, Frequencies;
    ll, d := seq(286, i => 0), seq(30, i => 0);
    NoTokenCodes(ts);
    NothingCounted(ll, d, ts);
    var i := 0;
    ghost var k := 0;
    while i != |codes|
      invariant k <= |ts| && Coded(ts[..k]) && i == |AllCodes(ts[..k])| <= |codes|
      invariant Frequencies(ll, d, ts, k)
      decreases |codes| - i
    {
      TokenInPlace(ts, k, codes, i);
      CountToken(ll, d, ts, k);
      FrequencySizes(ll, d, ts, k);
      var symbol := codes[i];
      ll := ll[symbol := ll[symbol] + 1];
      if symbol > 256 {
        var dist := codes[i + 2];
        d := d[dist := d[dist] + 1];
        i := i + 3;
      }
      i := i + 1;
      k := k + 1;
    }
    AllTokensDone(ts, k);
  }

  lemma NothingCounted(ll: seq<nat>, d: seq<nat>, ts: seq<Token>)
    requires |ll| == 286 && |d| == 30
    requires (forall s :: 0 <= s < 286 ==> ll[s] == 0) && (forall s :: 0 <= s < 30 ==> d[s] == 0)
    ensures Frequencies(ll, d, ts, 0)
  {
  }

  lemma FrequencySizes(ll: seq<nat>, d: seq<nat>, ts: seq<Token>, k: nat)
    requires Frequencies(ll, d, ts, k)
    ensures |ll| == 286 && |d| == 30
  {
  }

  // ---------- trees for the tokens ----------

  /** Lengths of the encoder's trees, which may be shorter than the alphabets. */
  ghost predicate EncoderTree(lens: seq<nat>, n: nat)
  {
    |lens| <= n && ValidLengths(lens) && Kraft(lens) == FULL
  }

  /** Trees from these frequencies have codes for all tokens and for the end code. */
  lemma TreesHaveCodes(ll: seq<nat>, d: seq<nat>, ts: seq<Token>, ll1: seq<nat>, llens: seq<nat>, dlens: seq<nat>)
    requires Frequencies(ll, d, ts, |ts|) && ll1 == ll[END_CODE := 1]
    requires CompleteFor(llens, ll1, 15) && CompleteFor(dlens, d, 15)
    ensures EncoderTree(llens, 286) && EncoderTree(dlens, 30) && Present(llens, END_CODE)
    ensures AllHaveCodes(ts, Pad(llens, 288), Pad(dlens, 32))
  {
    hide SymbolCount, DistanceCount, Kraft, TokenSymbol, DistanceIndex, LengthIndex;
    forall k | 0 <= k < |ts|
      ensures HasCodes(ts[k], Pad(llens, 288), Pad(dlens, 32))
    {
      TokenCounted(ts, k, |ts|);
      TokenHasCodes(ll, d, ts, ts[k], ll1, llens, dlens);
    }
  }

  lemma TokenHasCodes(ll: seq<nat>, d: seq<nat>, ts: seq<Token>, t: Token, ll1: seq<nat>, llens: seq<nat>, dlens: seq<nat>)
    requires Frequencies(ll, d, ts, |ts|) && ll1 == ll[END_CODE := 1]
    requires CompleteFor(llens, ll1, 15) && CompleteFor(dlens, d, 15)
    requires SymbolCount(ts, TokenSymbol(t), |ts|) > 0
    requires t.Match? ==> DistanceCount(ts, DistanceIndex(t.distance), |ts|) > 0
    ensures HasCodes(t, Pad(llens, 288), Pad(dlens, 32))
  {
    hide SymbolCount, DistanceCount, Kraft, LengthIndex, DistanceIndex;
    assert ll1[TokenSymbol(t)] > 0;
    assert Present(llens, TokenSymbol(t));
    if t.Match? {
      assert d[DistanceIndex(t.distance)] > 0;
      assert Present(dlens, DistanceIndex(t.distance));
    }
  }

  // ---------- writing tokens ----------

  /** Writes a symbol that the decoder reads with the padded tree. */
  method WritePadded(writer: BitWriter, tree: HuffmanTree, s: nat, ghost lens: seq<nat>, ghost n: nat)
    requires writer.Valid() && tree.Ready(lens) && |lens| <= n && s < n && Pad(lens, n)[s] > 0
    modifies writer, writer.out
    ensures writer.Valid() && writer.Bits() == old(writer.Bits()) + CodeBits(Pad(lens, n), s)
  {
    hide Code, Accepted, Decodes, Window, ToBE, Low, CodeBits;
    PadCodeBits(lens, n, s);
    WriteSymbol(writer, tree, s, lens);
  }

  lemma TokenBitsOfMatch(t: Token, cs: seq<nat>, ll: seq<nat>, dl: seq<nat>)
    requires |ll| == 288 && |dl| == 32 && Coded([t]) && t.Match? && t.length >= 3 && t.distance >= 1 && cs == Codes(t)
    ensures |LENGTHEXTRA| == 29 && |DISTANCEEXTRA| == 30 && |cs| == 4 && 257 <= cs[0] <= 285 && cs[2] < 30
    ensures TokenBits(t, ll, dl)
         == CodeBits(ll, cs[0]) + ToLE(cs[1], LENGTHEXTRA[cs[0] - 257])
            + (CodeBits(dl, cs[2]) + ToLE(cs[3], DISTANCEEXTRA[cs[2]]))
  {
    hide LENGTHBASE, DISTANCEBASE, CodeBits, ToLE, LENGTHEXTRA, DISTANCEEXTRA, LengthIndex, DistanceIndex;
    MatchIndices(t.length, t.distance);
  }

  lemma Reassociate(w: seq<bit>, a: seq<bit>, b: seq<bit>, c: seq<bit>, d: seq<bit>)
    ensures (((w + a) + b) + c) + d == w + ((a + b) + (c + d))
  {
  }

  /** A one-bit number is a bit. */
  lemma OneBit(v: nat, n: nat)
    requires v < Pow2(n)
    ensures n == 1 ==> v < 2
  {
    assert Pow2(1) == 2;
  }

  lemma ExtraCodesFit(t: Token)
    requires Coded([t]) && t.Match? && t.length >= 3 && t.distance >= 1
    ensures var cs := Codes(t);
            && |LENGTHEXTRA| == 29 && |DISTANCEEXTRA| == 30 && |cs| == 4 && 257 <= cs[0] <= 285 && cs[2] < 30
            && cs[1] < Pow2(LENGTHEXTRA[cs[0] - 257]) && cs[3] < Pow2(DISTANCEEXTRA[cs[2]])
  {
    hide LENGTHBASE, DISTANCEBASE, LENGTHEXTRA, DISTANCEEXTRA, LengthIndex, DistanceIndex, Pow2;
    assert [t][0] == t;
    ExtraBitsFit(t.length, t.distance);
  }

  /** Writes a match: length symbol, extra length, distance symbol, extra distance. */
  method WriteMatch(writer: BitWriter, cs: seq<nat>, treeLL: HuffmanTree, treeD: HuffmanTree,
                    ghost t: Token, ghost llens: seq<nat>, ghost dlens: seq<nat>)
    requires writer.Valid() && treeLL.Ready(llens) && treeD.Ready(dlens) && |llens| <= 288 && |dlens| <= 32
    requires Coded([t]) && t.Match? && t.length >= 3 && t.distance >= 1 && cs == Codes(t)
    requires HasCodes(t, Pad(llens, 288), Pad(dlens, 32))
    modifies writer, writer.out
    ensures writer.Valid()
    ensures writer.Bits() == old(writer.Bits()) + TokenBits(t, Pad(llens, 288), Pad(dlens, 32))
  {
    hide Accepted, CodesFor, Decodes, Window, CodeBits, ToLE, Pad, TokenBits, LENGTHBASE, DISTANCEBASE, LENGTHEXTRA,
         DISTANCEEXTRA, Codes, HasCodes, Pow2, Coded;
    TokenBitsOfMatch(t, cs, Pad(llens, 288), Pad(dlens, 32));
    ExtraCodesFit(t);
    MatchHasCodes(t, cs, Pad(llens, 288), Pad(dlens, 32));
    var lengthIndex := cs[0] - FIRST_LENGTH_CODE_INDEX;
    OneBit(cs[1], LENGTHEXTRA[lengthIndex]);
    OneBit(cs[3], DISTANCEEXTRA[cs[2]]);
    ghost var w := writer.Bits();
    WritePadded(writer, treeLL, cs[0], llens, 288);
    writer.WriteBits(cs[1], LENGTHEXTRA[lengthIndex]);
    WritePadded(writer, treeD, cs[2], dlens, 32);
    writer.WriteBits(cs[3], DISTANCEEXTRA[cs[2]]);
    Reassociate(w, CodeBits(Pad(llens, 288), cs[0]), ToLE(cs[1], LENGTHEXTRA[lengthIndex]),
                CodeBits(Pad(dlens, 32), cs[2]), ToLE(cs[3], DISTANCEEXTRA[cs[2]]));
  }

  lemma MatchHasCodes(t: Token, cs: seq<nat>, ll: seq<nat>, dl: seq<nat>)
    requires |ll| == 288 && |dl| == 32 && t.Match? && t.length >= 3 && t.distance >= 1 && cs == Codes(t)
    requires HasCodes(t, ll, dl)
    ensures |cs| == 4 && cs[0] < 288 && cs[2] < 32 && ll[cs[0]] > 0 && dl[cs[2]] > 0
  {
    hide LENGTHBASE, DISTANCEBASE, LengthIndex, DistanceIndex;
  }

  lemma TokensBitsStep(ts: seq<Token>, k: nat, ll: seq<nat>, dl: seq<nat>)
    requires |ll| == 288 && |dl| == 32 && Coded(ts) && k < |ts|
    ensures Coded(ts[..k]) && Coded(ts[..k + 1]) && Coded([ts[k]])
    ensures TokensBits(ts[..k + 1], ll, dl) == TokensBits(ts[..k], ll, dl) + TokenBits([ts[k]][0], ll, dl)
  {
    hide TokenBits;
    OneCoded(ts, k);
    assert ts[..k + 1][..k] == ts[..k];
  }

  lemma LiteralBits(t: Token, s: nat, ll: seq<nat>, dl: seq<nat>)
    requires |ll| == 288 && |dl| == 32 && Coded([t]) && t.Literal? && s == TokenSymbol(t) && HasCodes(t, ll, dl)
    ensures s < 288 && ll[s] > 0 && TokenBits(t, ll, dl) == CodeBits(ll, s)
  {
    hide CodeBits;
  }

  lemma NoTokensBits(ts: seq<Token>, ll: seq<nat>, dl: seq<nat>)
    requires |ll| == 288 && |dl| == 32
    ensures Coded(ts[..0]) && TokensBits(ts[..0], ll, dl) == []
  {
  }

  lemma AppendMore(w: seq<bit>, a: seq<bit>, b: seq<bit>)
    ensures (w + a) + b == w + (a + b)
  {
  }

  lemma AppendNothing(w: seq<bit>)
    ensures w + [] == w
  {
  }

  /** Writes the numbers of one token. */
  method WriteToken(writer: BitWriter, codes: seq<nat>, i: nat, treeLL: HuffmanTree, treeD: HuffmanTree,
                    ghost t: Token, ghost llens: seq<nat>, ghost dlens: seq<nat>)
    returns (next: nat)
    requires writer.Valid() && treeLL.Ready(llens) && treeD.Ready(dlens) && |llens| <= 288 && |dlens| <= 32
    requires Coded([t]) && HasCodes(t, Pad(llens, 288), Pad(dlens, 32))
    requires i < |codes| && codes[i] == TokenSymbol(t) && (codes[i] > 256 <==> t.Match?)
    requires t.Match? ==> t.length >= 3 && t.distance >= 1 && i + 4 <= |codes| && Codes(t) == codes[i..i + 4]
    modifies writer, writer.out
    ensures writer.Valid()
    ensures writer.Bits() == old(writer.Bits()) + TokenBits(t, Pad(llens, 288), Pad(dlens, 32))
    ensures next == i + if t.Match? then 4 else 1
  {
    hide Accepted, CodesFor, Decodes, Window, CodeBits, ToLE, Pad, TokenBits, Codes, HasCodes, Coded, TokenSymbol;
    var val := codes[i];
    if val > 256 {
      WriteMatch(writer, codes[i..i + 4], treeLL, treeD, t, llens, dlens);
      next := i + 4;
    } else {
      LiteralBits(t, val, Pad(llens, 288), Pad(dlens, 32));
      WritePadded(writer, treeLL, val, llens, 288);
      next := i + 1;
    }
  }

  /** Writes all tokens. */
  method WriteLZ77Data(writer: BitWriter, codes: seq<nat>, treeLL: HuffmanTree, treeD: HuffmanTree,
                       ghost ts: seq<Token>, ghost llens: seq<nat>, ghost dlens: seq<nat>)
    requires writer.Valid() && treeLL.Ready(llens) && treeD.Ready(dlens) && |llens| <= 288 && |dlens| <= 32
    requires Coded(ts) && codes == AllCodes(ts) && AllHaveCodes(ts, Pad(llens, 288), Pad(dlens, 32))
    modifies writer, writer.out
    ensures writer.Valid()
    ensures writer.Bits() == old(writer.Bits()) + TokensBits(ts, Pad(llens, 288), Pad(dlens, 32))
  {
    hide AllCodes, TokenSymbol, DistanceIndex, Codes, Coded, TokensBits, TokenBits, HasCodes, Accepted, CodesFor,
         Decodes, Window, Pad;
    ghost var w, ll, dl := writer.Bits(), Pad(llens, 288), Pad(dlens, 32);
    NoTokenCodes(ts);
    NoTokensBits(ts, ll, dl);
    AppendNothing(w);
    var i := 0;
    ghost var k := 0;
    while i != |codes|
      invariant k <= |ts| && Coded(ts[..k]) && i == |AllCodes(ts[..k])| <= |codes|
      invariant writer.Valid() && writer.Bits() == w + TokensBits(ts[..k], ll, dl)
      decreases |codes| - i
    {
      TokenInPlace(ts, k, codes, i);
      TokensBitsStep(ts, k, ll, dl);
      AppendMore(w, TokensBits(ts[..k], ll, dl), TokenBits(ts[k], ll, dl));
      i := WriteToken(writer, codes, i, treeLL, treeD, ts[k], llens, dlens);
      k := k + 1;
    }
    AllTokensDone(ts, k);
  }
}
