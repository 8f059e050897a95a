/**
 The other reading of the format: the bits that a list of blocks is written as, and the theorem
 that any such stream inflates to what its blocks stand for, whatever follows it.
 */
module DeflateFormat {
  import opened Bits
  import opened Canonical
  import opened DecodeTables
  import opened DecodeSymbols
  import opened Lz77
  import opened InflateSpec

  // ---------- bits in place ----------

  /** The stream has the bits bs at pos. */
  ghost predicate At(data: seq<byte>, pos: nat, bs: seq<bit>)
  {
    pos + |bs| <= 8 * |data| && Window(data, pos, |bs|) == bs
  }

  lemma AtSplit(data: seq<byte>, pos: nat, a: seq<bit>, b: seq<bit>)
    ensures At(data, pos, a + b) <==> At(data, pos, a) && At(data, pos + |a|, b)
  {
    hide Window;
    WindowSplit(data, pos, |a|, |b|);
    var w, x, y := Window(data, pos, |a| + |b|), Window(data, pos, |a|), Window(data, pos + |a|, |b|);
    if w == a + b {
      CutAt(w, x, y, a, b);
    }
  }

  /** A number written with n bits is read back. */
  lemma NumberAt(data: seq<byte>, pos: nat, v: nat, n: nat)
    requires At(data, pos, ToLE(v, n)) && v < Pow2(n)
    ensures Number(data, pos, n) == v
  {
    FromToLE(v, n);
    LowSmall(v, n);
  }

  /** The bits of a symbol's code. */
  function CodeBits(lens: seq<nat>, s: nat): (bs: seq<bit>)
    requires s < |lens|
    ensures |bs| == lens[s]
  {
    ToBE(Code(lens, s), lens[s])
  }

  lemma SymbolAt(data: seq<byte>, pos: nat, lens: seq<nat>, s: nat)
    requires ValidLengths(lens) && Accepted(lens) && Present(lens, s) && At(data, pos, CodeBits(lens, s))
    ensures NextSymbol(lens, data, pos) == Some(s)
  {
    WrittenSymbol(lens, s, data, pos);
  }

  // ---------- tokens ----------

  /** The trees have codes for the symbols of a token. */
  ghost predicate HasCodes(t: Token, ll: seq<nat>, dl: seq<nat>)
    requires |ll| == 288 && |dl| == 32
  {
    match t
    case Literal(b) => ll[b] > 0
    case Match(l, d) => ll[LengthIndex(l) + FIRST_LENGTH_CODE_INDEX] > 0 && dl[DistanceIndex(d)] > 0
  }

  ghost function TokenBits(t: Token, ll: seq<nat>, dl: seq<nat>): seq<bit>
    requires |ll| == 288 && |dl| == 32 && Coded([t])
  {
    match t
    case Literal(b) => CodeBits(ll, b)
    case Match(l, d) =>
      assert [t][0] == t;
      MatchIndices(l, d);
      var i, j := LengthIndex(l), DistanceIndex(d);
      CodeBits(ll, i + FIRST_LENGTH_CODE_INDEX) + ToLE(l - LENGTHBASE[i], LENGTHEXTRA[i])
      + (CodeBits(dl, j) + ToLE(d - DISTANCEBASE[j], DISTANCEEXTRA[j]))
  }

  ghost function TokensBits(ts: seq<Token>, ll: seq<nat>, dl: seq<nat>): seq<bit>
    requires |ll| == 288 && |dl| == 32 && Coded(ts)
  {
    if |ts| == 0 then [] else TokensBits(ts[..|ts| - 1], ll, dl) + TokenBits(ts[|ts| - 1], ll, dl)
  }

  lemma LiteralDecodes(data: seq<byte>, pos: nat, ll: seq<nat>, dl: seq<nat>, b: byte, out: seq<byte>)
    requires Trees(ll, dl) && ll[b] > 0 && At(data, pos, CodeBits(ll, b))
    ensures DecodeStep(data, ll, dl, pos, out) == More(out + [b], pos + ll[b])
  {
    hide NextSymbol, Accepted, CodeBits;
    SymbolAt(data, pos, ll, b);
  }

  lemma DistanceDecodes(data: seq<byte>, pos: nat, ll: seq<nat>, dl: seq<nat>, l: nat, d: nat, out: seq<byte>)
    requires Trees(ll, dl) && 3 <= l <= MAX_LENGTH && 1 <= d <= MAX_DISTANCE && d <= |out|
    requires DistanceIndex(d) < 30 && |DISTANCEBASE| == |DISTANCEEXTRA| == 30
    requires IndexFor(DISTANCEBASE, DistanceIndex(d), d) && dl[DistanceIndex(d)] > 0
    requires var j := DistanceIndex(d); At(data, pos, CodeBits(dl, j) + ToLE(d - DISTANCEBASE[j], DISTANCEEXTRA[j]))
    ensures var j := DistanceIndex(d);
            DecodeDistance(data, dl, pos, out, l) == More(Copy(out, l, d), pos + dl[j] + DISTANCEEXTRA[j])
  {
    hide NextSymbol, Accepted, CodeBits, LENGTHBASE, LENGTHEXTRA, DISTANCEBASE, DISTANCEEXTRA, Pow2, Copy, Number,
         DistanceIndex, LengthIndex, ToLE, At;
    var j := DistanceIndex(d);
    ExtraBitsFit(l, d);
    AtSplit(data, pos, CodeBits(dl, j), ToLE(d - DISTANCEBASE[j], DISTANCEEXTRA[j]));
    SymbolAt(data, pos, dl, j);
    NumberAt(data, pos + dl[j], d - DISTANCEBASE[j], DISTANCEEXTRA[j]);
  }

  lemma MatchDecodes(data: seq<byte>, pos: nat, ll: seq<nat>, dl: seq<nat>, l: nat, d: nat, out: seq<byte>)
    requires Trees(ll, dl) && Coded([Match(l, d)]) && Fits(Match(l, d), |out|) && HasCodes(Match(l, d), ll, dl)
    requires At(data, pos, TokenBits(Match(l, d), ll, dl))
    ensures DecodeStep(data, ll, dl, pos, out)
         == More(Copy(out, l, d), pos + |TokenBits(Match(l, d), ll, dl)|)
  {
    hide NextSymbol, Accepted, CodeBits, LENGTHBASE, LENGTHEXTRA, DISTANCEBASE, DISTANCEEXTRA, Pow2, Copy, Number,
         DistanceIndex, LengthIndex, ToLE, DecodeDistance, At;
    ExtraBitsFit(l, d);
    var i, j := LengthIndex(l), DistanceIndex(d);
    var c, x := CodeBits(ll, i + FIRST_LENGTH_CODE_INDEX), ToLE(l - LENGTHBASE[i], LENGTHEXTRA[i]);
    var y := CodeBits(dl, j) + ToLE(d - DISTANCEBASE[j], DISTANCEEXTRA[j]);
    AtSplit(data, pos, c + x, y);
    AtSplit(data, pos, c, x);
    SymbolAt(data, pos, ll, i + FIRST_LENGTH_CODE_INDEX);
    NumberAt(data, pos + |c|, l - LENGTHBASE[i], LENGTHEXTRA[i]);
    DistanceDecodes(data, pos + |c| + |x|, ll, dl, l, d, out);
  }

  /** One written token is decoded as itself. */
  lemma TokenDecodes(data: seq<byte>, pos: nat, ll: seq<nat>, dl: seq<nat>, t: Token, out: seq<byte>)
    requires Trees(ll, dl) && Coded([t]) && Fits(t, |out|) && HasCodes(t, ll, dl)
    requires At(data, pos, TokenBits(t, ll, dl))
    ensures DecodeStep(data, ll, dl, pos, out) == More(ExpandOne(t, out), pos + |TokenBits(t, ll, dl)|)
  {
    match t
    case Literal(b) => LiteralDecodes(data, pos, ll, dl, b, out);
    case Match(l, d) => MatchDecodes(data, pos, ll, dl, l, d, out);
  }

  ghost predicate AllHaveCodes(ts: seq<Token>, ll: seq<nat>, dl: seq<nat>)
    requires |ll| == 288 && |dl| == 32
  {
    forall i :: 0 <= i < |ts| ==> HasCodes(ts[i], ll, dl)
  }

  predicate WithinLimit(n: nat, maxOutput: nat)
  {
    maxOutput == 0 || n <= maxOutput
  }

  /** Decoding written tokens arrives at their expansion. */
  lemma {:induction false} TokensDecode(data: seq<byte>, pos: nat, ll: seq<nat>, dl: seq<nat>, ts: seq<Token>,
                                        out: seq<byte>, maxOutput: nat)
    requires Trees(ll, dl) && Coded(ts) && AllFit(ts, |out|) && AllHaveCodes(ts, ll, dl)
    requires At(data, pos, TokensBits(ts, ll, dl)) && WithinLimit(|Expand(ts, out)|, maxOutput)
    ensures InflateSymbols(data, ll, dl, pos, out, maxOutput)
         == InflateSymbols(data, ll, dl, pos + |TokensBits(ts, ll, dl)|, Expand(ts, out), maxOutput)
    decreases |ts|
  {
    hide Accepted, TokenBits, At, HasCodes, DecodeStep, Copy;
    AtBounds(data, pos, TokensBits(ts, ll, dl));
    if |ts| > 0 {
      var us, t := ts[..|ts| - 1], ts[|ts| - 1];
      var pos1 := pos + |TokensBits(us, ll, dl)|;
      AtSplit(data, pos, TokensBits(us, ll, dl), TokenBits(t, ll, dl));
      TokensDecode(data, pos, ll, dl, us, out, maxOutput);
      TokenDecodes(data, pos1, ll, dl, t, Expand(us, out));
    }
  }

  lemma AtBounds(data: seq<byte>, pos: nat, bs: seq<bit>)
    requires At(data, pos, bs)
    ensures pos + |bs| <= 8 * |data|
  {
  }

  /** A block's data: its tokens, then the end code. */
  ghost function DataBits(ts: seq<Token>, ll: seq<nat>, dl: seq<nat>): seq<bit>
    requires |ll| == 288 && |dl| == 32 && Coded(ts)
  {
    TokensBits(ts, ll, dl) + CodeBits(ll, END_CODE)
  }

  lemma DataDecodes(data: seq<byte>, pos: nat, ll: seq<nat>, dl: seq<nat>, ts: seq<Token>, out: seq<byte>, maxOutput: nat)
    requires Trees(ll, dl) && Coded(ts) && AllFit(ts, |out|) && AllHaveCodes(ts, ll, dl) && ll[END_CODE] > 0
    requires At(data, pos, DataBits(ts, ll, dl)) && WithinLimit(|Expand(ts, out)|, maxOutput)
    ensures InflateSymbols(data, ll, dl, pos, out, maxOutput)
         == Done(Expand(ts, out), pos + |DataBits(ts, ll, dl)|)
  {
    hide Accepted, TokensBits, At, CodeBits, NextSymbol, AllHaveCodes, Expand;
    var pos1 := pos + |TokensBits(ts, ll, dl)|;
    AtSplit(data, pos, TokensBits(ts, ll, dl), CodeBits(ll, END_CODE));
    AtBounds(data, pos1, CodeBits(ll, END_CODE));
    TokensDecode(data, pos, ll, dl, ts, out, maxOutput);
    SymbolAt(data, pos1, ll, END_CODE);
  }

  // ---------- code length symbols ----------

  /** A code length, the previous length again, or a run of zeros (RFC 1951 section 3.2.7). */
  datatype LengthItem = Plain(v: nat) | Again(n: nat) | ShortZeros(n: nat) | LongZeros(n: nat)

  predicate ItemOk(it: LengthItem, have: nat)
  {
    match it
    case Plain(v) => v <= 15
    case Again(n) => 3 <= n <= 6 && have > 0
    case ShortZeros(n) => 3 <= n <= 10
    case LongZeros(n) => 11 <= n <= 138
  }

  function ItemSymbol(it: LengthItem): nat
  {
    match it
    case Plain(v) => v
    case Again(_) => 16
    case ShortZeros(_) => 17
    case LongZeros(_) => 18
  }

  function ItemExtra(it: LengthItem): (bs: seq<bit>)
    requires ItemOk(it, 1)
  {
    match it
    case Plain(_) => []
    case Again(n) => ToLE(n - 3, 2)
    case ShortZeros(n) => ToLE(n - 3, 3)
    case LongZeros(n) => ToLE(n - 11, 7)
  }

  function ItemLengths(it: LengthItem, acc: seq<nat>): (add: seq<nat>)
    requires ItemOk(it, |acc|)
    ensures |add| > 0
  {
    match it
    case Plain(v) => [v]
    case Again(n) => Repeat(acc[|acc| - 1], n)
    case ShortZeros(n) => Repeat(0, n)
    case LongZeros(n) => Repeat(0, n)
  }

  ghost predicate ItemsOk(its: seq<LengthItem>)
  {
    |its| == 0 || (ItemsOk(its[..|its| - 1]) && ItemOk(its[|its| - 1], |its| - 1))
  }

  /** The lengths a list of symbols stands for. */
  function ItemsLengths(its: seq<LengthItem>): (lens: seq<nat>)
    requires ItemsOk(its)
    ensures |lens| >= |its|
  {
    if |its| == 0 then []
    else
      var acc := ItemsLengths(its[..|its| - 1]);
      assert ItemOk(its[|its| - 1], |acc|);
      acc + ItemLengths(its[|its| - 1], acc)
  }

  ghost predicate ItemCoded(it: LengthItem, cl: seq<nat>)
  {
    ItemSymbol(it) < |cl| && cl[ItemSymbol(it)] > 0
  }

  ghost function ItemBits(it: LengthItem, cl: seq<nat>): seq<bit>
    requires ItemOk(it, 1) && ItemSymbol(it) < |cl|
  {
    CodeBits(cl, ItemSymbol(it)) + ItemExtra(it)
  }

  ghost predicate AllItemsCoded(its: seq<LengthItem>, cl: seq<nat>)
  {
    forall i :: 0 <= i < |its| ==> ItemOk(its[i], 1) && ItemCoded(its[i], cl)
  }

  ghost function ItemsBits(its: seq<LengthItem>, cl: seq<nat>): seq<bit>
    requires AllItemsCoded(its, cl)
  {
    if |its| == 0 then [] else ItemsBits(its[..|its| - 1], cl) + ItemBits(its[|its| - 1], cl)
  }

  lemma ItemDecodes(data: seq<byte>, pos: nat, cl: seq<nat>, it: LengthItem, acc: seq<nat>, total: nat)
    requires ValidLengths(cl) && Accepted(cl) && |cl| == NUM_CODE_LENGTH_CODES
    requires ItemOk(it, |acc|) && ItemOk(it, 1) && ItemCoded(it, cl) && |acc| + |ItemLengths(it, acc)| <= total
    requires At(data, pos, ItemBits(it, cl))
    ensures DecodeLengthStep(data, cl, pos, acc, total)
         == Lengths(ItemLengths(it, acc), pos + |ItemBits(it, cl)|)
  {
    hide NextSymbol, Accepted, CodeBits, Number, ToLE, Pow2, Repeat, At;
    AtSplit(data, pos, CodeBits(cl, ItemSymbol(it)), ItemExtra(it));
    SymbolAt(data, pos, cl, ItemSymbol(it));
    SmallPowers();
    var pos1 := pos + cl[ItemSymbol(it)];
    match it
    case Plain(_) =>
    case Again(n) => NumberAt(data, pos1, n - 3, 2);
    case ShortZeros(n) => NumberAt(data, pos1, n - 3, 3);
    case LongZeros(n) => NumberAt(data, pos1, n - 11, 7);
  }

  lemma SmallPowers()
    ensures Pow2(2) == 4 && Pow2(3) == 8 && Pow2(4) == 16 && Pow2(5) == 32 && Pow2(7) == 128
  {
    assert Pow2(4) == 16;
    assert Pow2(7) == 128;
  }

  /** Reading written code length symbols arrives at the lengths they stand for. */
  lemma {:induction false} ItemsDecode(data: seq<byte>, pos: nat, cl: seq<nat>, its: seq<LengthItem>, total: nat)
    requires ValidLengths(cl) && Accepted(cl) && |cl| == NUM_CODE_LENGTH_CODES
    requires ItemsOk(its) && AllItemsCoded(its, cl) && |ItemsLengths(its)| <= total
    requires At(data, pos, ItemsBits(its, cl))
    ensures DecodeLengths(data, cl, pos, [], total)
         == DecodeLengths(data, cl, pos + |ItemsBits(its, cl)|, ItemsLengths(its), total)
    decreases |its|
  {
    hide Accepted, ItemBits, At, ItemCoded, DecodeLengthStep, ItemLengths;
    AtBounds(data, pos, ItemsBits(its, cl));
    if |its| > 0 {
      var prefix, it := its[..|its| - 1], its[|its| - 1];
      var acc := ItemsLengths(prefix);
      var pos1 := pos + |ItemsBits(prefix, cl)|;
      AtSplit(data, pos, ItemsBits(prefix, cl), ItemBits(it, cl));
      ItemsDecode(data, pos, cl, prefix, total);
      AtBounds(data, pos1, ItemBits(it, cl));
      ItemDecodes(data, pos1, cl, it, acc, total);
    }
  }

  // ---------- the header of a dynamic block ----------

  /** The first n code length code lengths, in their order. */
  function ClBits(cl: seq<nat>, n: nat): (bs: seq<bit>)
    requires |cl| == NUM_CODE_LENGTH_CODES && n <= NUM_CODE_LENGTH_CODES
    ensures |bs| == 3 * n
  {
    if n == 0 then []
    else
      ClIndex(n - 1);
      ClBits(cl, n - 1) + ToLE(cl[CLCL_ORDER[n - 1]], 3)
  }

  lemma ClIndex(i: nat)
    requires i < NUM_CODE_LENGTH_CODES
    ensures |CLCL_ORDER| == NUM_CODE_LENGTH_CODES && CLCL_ORDER[i] < NUM_CODE_LENGTH_CODES
  {
  }

  lemma ClDistinct(i: nat, j: nat)
    requires i < j < NUM_CODE_LENGTH_CODES
    ensures |CLCL_ORDER| == NUM_CODE_LENGTH_CODES && CLCL_ORDER[i] != CLCL_ORDER[j]
  {
  }

  /** Where a symbol is in the order. */
  const CLCL_PLACE: seq<nat> := [3, 17, 15, 13, 11, 9, 7, 5, 4, 6, 8, 10, 12, 14, 16, 18, 0, 1, 2]

  lemma ClPlace(s: nat)
    requires s < NUM_CODE_LENGTH_CODES
    ensures |CLCL_PLACE| == NUM_CODE_LENGTH_CODES == |CLCL_ORDER|
    ensures CLCL_PLACE[s] < NUM_CODE_LENGTH_CODES && CLCL_ORDER[CLCL_PLACE[s]] == s
  {
  }

  /** Lengths of at most three bits; the ones past n in the order are zero. */
  ghost predicate ClOk(cl: seq<nat>, n: nat)
  {
    && |cl| == NUM_CODE_LENGTH_CODES == |CLCL_ORDER| && n <= NUM_CODE_LENGTH_CODES
    && (forall s :: 0 <= s < NUM_CODE_LENGTH_CODES ==> cl[s] <= 7)
    && forall i :: n <= i < NUM_CODE_LENGTH_CODES ==> CLCL_ORDER[i] < |cl| && cl[CLCL_ORDER[i]] == 0
  }

  lemma {:induction false} ClRead(data: seq<byte>, pos: nat, cl: seq<nat>, n: nat)
    requires |cl| == NUM_CODE_LENGTH_CODES && n <= NUM_CODE_LENGTH_CODES && At(data, pos, ClBits(cl, n))
    requires forall s :: 0 <= s < NUM_CODE_LENGTH_CODES ==> cl[s] <= 7
    ensures |CLCL_ORDER| == NUM_CODE_LENGTH_CODES
    ensures forall i :: 0 <= i < NUM_CODE_LENGTH_CODES ==>
              CLCL_ORDER[i] < NUM_CODE_LENGTH_CODES
              && ClLengths(data, pos, n)[CLCL_ORDER[i]] == if i < n then cl[CLCL_ORDER[i]] else 0
  {
    hide CLCL_ORDER, Number, At, ToLE;
    forall i: nat | i < NUM_CODE_LENGTH_CODES
      ensures |CLCL_ORDER| == NUM_CODE_LENGTH_CODES && CLCL_ORDER[i] < NUM_CODE_LENGTH_CODES
    {
      ClIndex(i);
    }
    ClIndex(0);
    if n > 0 {
      var v := cl[CLCL_ORDER[n - 1]];
      AtSplit(data, pos, ClBits(cl, n - 1), ToLE(v, 3));
      ClRead(data, pos, cl, n - 1);
      SmallPowers();
      NumberAt(data, pos + 3 * (n - 1), v, 3);
      forall i: nat | i < NUM_CODE_LENGTH_CODES
        ensures ClLengths(data, pos, n)[CLCL_ORDER[i]] == if i < n then cl[CLCL_ORDER[i]] else 0
      {
        if i < n - 1 { ClDistinct(i, n - 1); } else if n - 1 < i { ClDistinct(n - 1, i); }
      }
    }
  }

  /** The written code length code lengths are read back. */
  lemma ClDecodes(data: seq<byte>, pos: nat, cl: seq<nat>, n: nat)
    requires ClOk(cl, n) && At(data, pos, ClBits(cl, n))
    ensures ClLengths(data, pos, n) == cl
  {
    hide CLCL_ORDER, CLCL_PLACE, ClLengths, ClBits;
    ClRead(data, pos, cl, n);
    forall s | 0 <= s < NUM_CODE_LENGTH_CODES
      ensures ClLengths(data, pos, n)[s] == cl[s]
    {
      ClPlace(s);
      assert CLCL_ORDER[CLCL_PLACE[s]] == s;
    }
  }

  datatype Header = Header(hlit: nat, hdist: nat, hclen: nat, cl: seq<nat>, items: seq<LengthItem>)

  ghost predicate HeaderOk(h: Header)
  {
    && 257 <= h.hlit <= 288 && 1 <= h.hdist <= 32 && 4 <= h.hclen <= 19
    && ClOk(h.cl, h.hclen) && ValidLengths(h.cl) && Accepted(h.cl)
    && ItemsOk(h.items) && AllItemsCoded(h.items, h.cl)
    && |ItemsLengths(h.items)| == h.hlit + h.hdist
  }

  ghost function HeaderLL(h: Header): (ll: seq<nat>)
    requires HeaderOk(h)
    ensures |ll| == 288
  {
    Pad(ItemsLengths(h.items)[..h.hlit], 288)
  }

  ghost function HeaderDL(h: Header): (dl: seq<nat>)
    requires HeaderOk(h)
    ensures |dl| == 32
  {
    Pad(ItemsLengths(h.items)[h.hlit..], 32)
  }

  ghost function HeaderBits(h: Header): seq<bit>
    requires HeaderOk(h)
  {
    (ToLE(h.hlit - 257, 5) + ToLE(h.hdist - 1, 5) + ToLE(h.hclen - 4, 4)) + ClBits(h.cl, h.hclen)
    + ItemsBits(h.items, h.cl)
  }

  lemma CountsDecode(data: seq<byte>, pos: nat, h: Header)
    requires HeaderOk(h) && At(data, pos, ToLE(h.hlit - 257, 5) + ToLE(h.hdist - 1, 5) + ToLE(h.hclen - 4, 4))
    ensures Number(data, pos, 5) == h.hlit - 257 && Number(data, pos + 5, 5) == h.hdist - 1
    ensures Number(data, pos + 10, 4) == h.hclen - 4
  {
    hide Number, At, ToLE, Accepted, ItemsOk, AllItemsCoded, ItemsLengths;
    var a, b, c := ToLE(h.hlit - 257, 5), ToLE(h.hdist - 1, 5), ToLE(h.hclen - 4, 4);
    AtSplit(data, pos, a + b, c);
    AtSplit(data, pos, a, b);
    SmallPowers();
    NumberAt(data, pos, h.hlit - 257, 5);
    NumberAt(data, pos + 5, h.hdist - 1, 5);
    NumberAt(data, pos + 10, h.hclen - 4, 4);
  }

  /** The three parts of a header in place. */
  lemma HeaderParts(data: seq<byte>, pos: nat, h: Header)
    requires HeaderOk(h) && At(data, pos, HeaderBits(h))
    ensures At(data, pos, ToLE(h.hlit - 257, 5) + ToLE(h.hdist - 1, 5) + ToLE(h.hclen - 4, 4))
    ensures At(data, pos + 14, ClBits(h.cl, h.hclen))
    ensures At(data, pos + 14 + 3 * h.hclen, ItemsBits(h.items, h.cl))
    ensures pos + |HeaderBits(h)| == pos + 14 + 3 * h.hclen + |ItemsBits(h.items, h.cl)| <= 8 * |data|
  {
    hide At, ToLE, Accepted, ItemsOk, AllItemsCoded, ItemsLengths, ItemsBits, CLCL_ORDER;
    var counts := ToLE(h.hlit - 257, 5) + ToLE(h.hdist - 1, 5) + ToLE(h.hclen - 4, 4);
    AtBounds(data, pos, HeaderBits(h));
    AtSplit(data, pos, counts + ClBits(h.cl, h.hclen), ItemsBits(h.items, h.cl));
    AtSplit(data, pos, counts, ClBits(h.cl, h.hclen));
  }

  /** Reading the lengths of a written header. */
  lemma HeaderLengthsDecode(data: seq<byte>, pos: nat, h: Header)
    requires HeaderOk(h) && At(data, pos, ItemsBits(h.items, h.cl))
    ensures pos <= 8 * |data|
    ensures DecodeLengths(data, h.cl, pos, [], h.hlit + h.hdist)
         == Done(ItemsLengths(h.items), pos + |ItemsBits(h.items, h.cl)|)
  {
    hide At, ToLE, Accepted, ItemsOk, AllItemsCoded, ItemsLengths, ItemsBits, CLCL_ORDER, DecodeLengths;
    AtBounds(data, pos, ItemsBits(h.items, h.cl));
    ItemsDecode(data, pos, h.cl, h.items, h.hlit + h.hdist);
    AllLengthsRead(data, h.cl, pos + |ItemsBits(h.items, h.cl)|, ItemsLengths(h.items));
  }

  lemma AllLengthsRead(data: seq<byte>, cl: seq<nat>, pos: nat, lens: seq<nat>)
    requires |cl| == NUM_CODE_LENGTH_CODES && pos <= 8 * |data|
    ensures DecodeLengths(data, cl, pos, lens, |lens|) == Done(lens, pos)
  {
  }

  lemma HeaderTrees(h: Header, pos: nat)
    requires HeaderOk(h) && Trees(HeaderLL(h), HeaderDL(h)) && HeaderLL(h)[END_CODE] > 0
    ensures TreesFrom(ItemsLengths(h.items), h.hlit, pos) == Done(TreePair(HeaderLL(h), HeaderDL(h)), pos)
  {
    hide Accepted, ItemsOk, AllItemsCoded, ItemsLengths, CLCL_ORDER, Pad;
  }

  /** A written header gives its trees. */
  lemma HeaderDecodes(data: seq<byte>, pos: nat, h: Header)
    requires HeaderOk(h) && At(data, pos, HeaderBits(h))
    requires Trees(HeaderLL(h), HeaderDL(h)) && HeaderLL(h)[END_CODE] > 0
    ensures DynamicTrees(data, pos) == Done(TreePair(HeaderLL(h), HeaderDL(h)), pos + |HeaderBits(h)|)
  {
    hide Number, At, ToLE, Accepted, ItemsOk, AllItemsCoded, ItemsLengths, ClLengths, ItemsBits, ClBits, CLCL_ORDER,
         TreesFrom, HeaderLL, HeaderDL, HeaderBits, DecodeLengths;
    HeaderParts(data, pos, h);
    CountsDecode(data, pos, h);
    ClDecodes(data, pos + 14, h.cl, h.hclen);
    HeaderLengthsDecode(data, pos + 14 + 3 * h.hclen, h);
    HeaderTrees(h, pos + |HeaderBits(h)|);
  }
}
