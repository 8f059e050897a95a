/**
 What a deflate stream means (RFC 1951 sections 3.2.3 to 3.2.7), as functions on the bit stream:
 the decoder's control flow with table look-ups and bit buffers replaced by canonical prefix
 codes and stream windows, and with the decoder's error numbers.

 The stream has zero bits past its end; the checks that refuse reading past it stand where the
 decoder has them. In particular the end code of a block is not checked.
 */
module InflateSpec {
  import opened Bits
  import opened Canonical
  import opened DecodeTables
  import opened DecodeSymbols
  import opened Lz77
  import opened BitReaders

  datatype Outcome<+T> = Done(value: T, pos: nat) | Fail(error: nat)

  /** Output limit (0 for none), and whether the check of stored block lengths is skipped. */
  datatype DecompressSettings = DecompressSettings(maxOutput: nat, ignoreNlen: bool)

  function Number(data: seq<byte>, pos: nat, n: nat): nat
  {
    FromLE(Window(data, pos, n))
  }

  // ---------- compressed data ----------

  /** One symbol with what belongs to it. */
  datatype Step = End(pos: nat) | More(out: seq<byte>, pos: nat) | Error(error: nat)

  /** Trees for literals and lengths, and for distances. */
  ghost predicate Trees(ll: seq<nat>, dl: seq<nat>)
  {
    && |ll| == 288 && ValidLengths(ll) && Accepted(ll)
    && |dl| == 32 && ValidLengths(dl) && Accepted(dl)
  }

  ghost function DecodeDistance(data: seq<byte>, dl: seq<nat>, pos: nat, out: seq<byte>, length: nat): Step
  {
    match NextSymbol(dl, data, pos)
    case None => Error(16)
    case Some(d) =>
      if d > 29 || d >= |dl| then Error(18)
      else
        TablesIncreasing();
        var pos1 := pos + dl[d];
        var distance := DISTANCEBASE[d] + Number(data, pos1, DISTANCEEXTRA[d]);
        DistanceBasePositive(d);
        if distance > |out| then Error(52)
        else More(Copy(out, length, distance), pos1 + DISTANCEEXTRA[d])
  }

  lemma DistanceBasePositive(d: nat)
    requires d < 30
    ensures |DISTANCEBASE| == 30 && DISTANCEBASE[d] >= 1
  {
    TablesIncreasing();
    InOrder(DISTANCEBASE, 0, d);
  }

  ghost function DecodeStep(data: seq<byte>, ll: seq<nat>, dl: seq<nat>, pos: nat, out: seq<byte>): Step
  {
    match NextSymbol(ll, data, pos)
    case None => Error(16)
    case Some(s) =>
      if s >= |ll| then Error(16)
      else if s <= 255 then More(out + [s], pos + ll[s])
      else if s == END_CODE then End(pos + ll[s])
      else if FIRST_LENGTH_CODE_INDEX <= s <= LAST_LENGTH_CODE_INDEX then
        TablesIncreasing();
        var i := s - FIRST_LENGTH_CODE_INDEX;
        var length := LENGTHBASE[i] + Number(data, pos + ll[s], LENGTHEXTRA[i]);
        DecodeDistance(data, dl, pos + ll[s] + LENGTHEXTRA[i], out, length)
      else Error(16)
  }

  lemma StepAdvances(data: seq<byte>, ll: seq<nat>, dl: seq<nat>, pos: nat, out: seq<byte>)
    ensures var st := DecodeStep(data, ll, dl, pos, out);
            (st.More? ==> st.pos > pos) && (st.End? ==> st.pos > pos) && (st.Error? ==> st.error != 0)
  {
    NextSymbolPresent(ll, data, pos);
  }

  ghost function InflateSymbols(data: seq<byte>, ll: seq<nat>, dl: seq<nat>, pos: nat, out: seq<byte>, maxOutput: nat)
    : (r: Outcome<seq<byte>>)
    requires pos <= 8 * |data|
    ensures r.Done? ==> r.pos > pos
    ensures r.Fail? ==> r.error != 0
    decreases 8 * |data| - pos
  {
    StepAdvances(data, ll, dl, pos, out);
    match DecodeStep(data, ll, dl, pos, out)
    case Error(e) => Fail(e)
    case End(pos') => Done(out, pos')
    case More(out', pos') =>
      if pos' > 8 * |data| then Fail(51)
      else if maxOutput != 0 && |out'| > maxOutput then Fail(109)
      else InflateSymbols(data, ll, dl, pos', out', maxOutput)
  }

  // ---------- fixed trees ----------

  function FixedLitLen(): (ll: seq<nat>)
    ensures |ll| == 288
  {
    seq(288, i => if i <= 143 then 8 else if i <= 255 then 9 else if i <= 279 then 7 else 8)
  }

  function FixedDistance(): (dl: seq<nat>)
    ensures |dl| == 32
  {
    seq(32, i => 5)
  }

  // ---------- dynamic trees ----------

  const NUM_CODE_LENGTH_CODES: nat := 19
  const CLCL_ORDER: seq<nat> := [16, 17, 18, 0, 8, 7, 9, 6, 10, 5, 11, 4, 12, 3, 13, 2, 14, 1, 15]

  /** The code length code lengths: three bits each, in their own order. */
  function ClLengths(data: seq<byte>, pos: nat, n: nat): (cl: seq<nat>)
    requires n <= NUM_CODE_LENGTH_CODES
    ensures |cl| == NUM_CODE_LENGTH_CODES && forall i :: 0 <= i < |cl| ==> cl[i] <= 7
  {
    if n == 0 then seq(NUM_CODE_LENGTH_CODES, i => 0)
    else
      ThreeBits(data, pos + 3 * (n - 1));
      ClLengths(data, pos, n - 1)[CLCL_ORDER[n - 1] := Number(data, pos + 3 * (n - 1), 3)]
  }

  lemma ThreeBits(data: seq<byte>, pos: nat)
    ensures Number(data, pos, 3) <= 7
  {
    FromLEBound(Window(data, pos, 3));
    assert Pow2(3) == 8;
  }

  function Repeat(v: nat, n: nat): (s: seq<nat>)
    ensures |s| == n && forall i :: 0 <= i < n ==> s[i] == v
  {
    seq(n, i => v)
  }

  /** One code length symbol: a length, or a repetition. The new lengths, or an error that is
      reported only if the stream is not overrun. */
  datatype LengthStep = Lengths(add: seq<nat>, pos: nat) | LengthError(error: nat) | TooMany(error: nat, pos: nat)

  ghost function DecodeLengthStep(data: seq<byte>, cl: seq<nat>, pos: nat, acc: seq<nat>, total: nat): LengthStep
  {
    match NextSymbol(cl, data, pos)
    case None => LengthError(16)
    case Some(s) =>
      if s >= |cl| then LengthError(16)
      else
        var pos1 := pos + cl[s];
        if s <= 15 then Lengths([s], pos1)
        else if s == 16 then
          if |acc| == 0 then LengthError(54)
          else
            var n := 3 + Number(data, pos1, 2);
            if |acc| + n > total then TooMany(13, pos1 + 2) else Lengths(Repeat(acc[|acc| - 1], n), pos1 + 2)
        else if s == 17 then
          var n := 3 + Number(data, pos1, 3);
          if |acc| + n > total then TooMany(14, pos1 + 3) else Lengths(Repeat(0, n), pos1 + 3)
        else if s == 18 then
          var n := 11 + Number(data, pos1, 7);
          if |acc| + n > total then TooMany(15, pos1 + 7) else Lengths(Repeat(0, n), pos1 + 7)
        else LengthError(16)
  }

  lemma LengthStepAdvances(data: seq<byte>, cl: seq<nat>, pos: nat, acc: seq<nat>, total: nat)
    requires |acc| < total && |cl| == NUM_CODE_LENGTH_CODES
    ensures var st := DecodeLengthStep(data, cl, pos, acc, total);
            && (st.Lengths? ==> |st.add| > 0 && |acc + st.add| <= total && st.pos > pos)
            && (st.LengthError? ==> st.error != 0) && (st.TooMany? ==> st.error != 0)
  {
    NextSymbolPresent(cl, data, pos);
  }

  ghost function DecodeLengths(data: seq<byte>, cl: seq<nat>, pos: nat, acc: seq<nat>, total: nat): (r: Outcome<seq<nat>>)
    requires |acc| <= total && |cl| == NUM_CODE_LENGTH_CODES && pos <= 8 * |data|
    ensures r.Done? ==> |r.value| == total && pos <= r.pos <= 8 * |data|
    ensures r.Fail? ==> r.error != 0
    decreases total - |acc|
  {
    if |acc| == total then Done(acc, pos)
    else
      LengthStepAdvances(data, cl, pos, acc, total);
      match DecodeLengthStep(data, cl, pos, acc, total)
      case LengthError(e) => Fail(e)
      case TooMany(e, pos') => if pos' > 8 * |data| then Fail(50) else Fail(e)
      case Lengths(add, pos') =>
        if pos' > 8 * |data| then Fail(50) else DecodeLengths(data, cl, pos', acc + add, total)
  }

  /** Lengths for the first symbols, zero for the rest. */
  function Pad(lens: seq<nat>, n: nat): (r: seq<nat>)
    ensures |r| == if |lens| <= n then n else |lens|
  {
    if |lens| <= n then lens + Repeat(0, n - |lens|) else lens
  }

  datatype TreePair = TreePair(ll: seq<nat>, dl: seq<nat>)

  ghost function TreesFrom(lens: seq<nat>, hlit: nat, pos: nat): (r: Outcome<TreePair>)
    requires 257 <= hlit <= 288 && hlit <= |lens| <= hlit + 32
    ensures r.Done? ==> r.pos == pos && Trees(r.value.ll, r.value.dl)
    ensures r.Fail? ==> r.error != 0
  {
    var ll, dl := Pad(lens[..hlit], 288), Pad(lens[hlit..], 32);
    if ll[256] == 0 then Fail(64)
    else if !(ValidLengths(ll) && Accepted(ll)) then Fail(55)
    else if !(ValidLengths(dl) && Accepted(dl)) then Fail(55)
    else Done(TreePair(ll, dl), pos)
  }

  ghost function DynamicTrees(data: seq<byte>, pos: nat): (r: Outcome<TreePair>)
    ensures r.Done? ==> pos <= r.pos <= 8 * |data| && Trees(r.value.ll, r.value.dl)
    ensures r.Fail? ==> r.error != 0
  {
    if pos + 14 > 8 * |data| then Fail(49)
    else
      HeaderBounds(data, pos);
      var hlit, hdist, hclen := Number(data, pos, 5) + 257, Number(data, pos + 5, 5) + 1, Number(data, pos + 10, 4) + 4;
      if pos + 14 + 3 * hclen > 8 * |data| then Fail(50)
      else
        var cl := ClLengths(data, pos + 14, hclen);
        if !(ValidLengths(cl) && Accepted(cl)) then Fail(55)
        else match DecodeLengths(data, cl, pos + 14 + 3 * hclen, [], hlit + hdist)
             case Fail(e) => Fail(e)
             case Done(lens, pos') => TreesFrom(lens, hlit, pos')
  }

  lemma HeaderBounds(data: seq<byte>, pos: nat)
    ensures Number(data, pos, 5) < 32 && Number(data, pos + 5, 5) < 32 && Number(data, pos + 10, 4) < 16
  {
    FromLEBound(Window(data, pos, 5));
    FromLEBound(Window(data, pos + 5, 5));
    FromLEBound(Window(data, pos + 10, 4));
    assert Pow2(4) == 16;
  }

  // ---------- blocks ----------

  ghost function HuffmanBlock(data: seq<byte>, btype: nat, pos: nat, out: seq<byte>, maxOutput: nat)
    : (r: Outcome<seq<byte>>)
    requires pos <= 8 * |data|
    ensures r.Done? ==> r.pos > pos
    ensures r.Fail? ==> r.error != 0
  {
    var trees := if btype == 1 then Done(TreePair(FixedLitLen(), FixedDistance()), pos) else DynamicTrees(data, pos);
    match trees
    case Fail(e) => Fail(e)
    case Done(t, pos') =>
      InflateSymbols(data, t.ll, t.dl, pos', out, maxOutput)
  }

  /** Two bytes, least significant first. */
  function Word16(data: seq<byte>, p: nat): (n: nat)
    requires p + 1 < |data|
    ensures n < 65536
  {
    var lo: nat, hi: nat := data[p], data[p + 1];
    lo + 256 * hi
  }

  /** A stored block starts at the next byte with its length and the length's complement. */
  function StoredBlock(data: seq<byte>, pos: nat, out: seq<byte>, ignoreNlen: bool): (r: Outcome<seq<byte>>)
    ensures r.Done? ==> r.pos > pos
    ensures r.Fail? ==> r.error != 0
  {
    var p := (pos + 7) / 8;
    if p + 4 >= |data| then Fail(52)
    else
      var len, nlen := Word16(data, p), Word16(data, p + 2);
      if !ignoreNlen && len + nlen != 65535 then Fail(21)
      else if p + 4 + len > |data| then Fail(23)
      else Done(out + data[p + 4..p + 4 + len], 8 * (p + 4 + len))
  }

  ghost function Block(data: seq<byte>, btype: nat, pos: nat, out: seq<byte>, settings: DecompressSettings)
    : (r: Outcome<seq<byte>>)
    requires pos <= 8 * |data|
    ensures r.Done? ==> r.pos > pos
    ensures r.Fail? ==> r.error != 0
  {
    if btype == 3 then Fail(20)
    else
      var r := if btype == 0 then StoredBlock(data, pos, out, settings.ignoreNlen)
               else HuffmanBlock(data, btype, pos, out, settings.maxOutput);
      if r.Done? && settings.maxOutput != 0 && |r.value| > settings.maxOutput then Fail(109) else r
  }

  ghost function InflateBlocks(data: seq<byte>, pos: nat, out: seq<byte>, settings: DecompressSettings)
    : (r: Outcome<seq<byte>>)
    ensures r.Fail? ==> r.error != 0
    decreases 8 * |data| - pos
  {
    if pos + 3 > 8 * |data| then Fail(52)
    else
      match Block(data, Number(data, pos + 1, 2), pos + 3, out, settings)
      case Fail(e) => Fail(e)
      case Done(out', pos') =>
        if BitAt(data, pos) == 1 then Done(out', pos') else InflateBlocks(data, pos', out', settings)
  }

  /** The bytes a deflate stream stands for, appended to out, or the decoder's error. */
  ghost function Inflated(data: seq<byte>, out: seq<byte>, settings: DecompressSettings): Outcome<seq<byte>>
  {
    if !SizeFits(|data|) then Fail(105) else InflateBlocks(data, 0, out, settings)
  }
}
