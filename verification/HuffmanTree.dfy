/**
 Building a Huffman tree from its code lengths: the canonical codes, the two-level decoding table,
 and the error that refuses lengths that are not a complete prefix code.
 */
module HuffmanTrees {
  import opened Bits
  import opened Canonical
  import opened PrefixCodes
  import opened DecodeTables

  // ---------- reversing bits ----------

  lemma RevStep(bits: nat, num: nat, i: nat, result: nat)
    requires i < num && result == FromLE(ToBE(bits, num)[..i])
    ensures Or(result, Shl(Shr(bits, num - i - 1) % 2, i)) == FromLE(ToBE(bits, num)[..i + 1])
  {
    var code := ToBE(bits, num);
    var b := Shr(bits, num - i - 1) % 2;
    hide ToBE, Shr, Or, Shl;
    FromLEBound(code[..i]);
    OrDisjoint(result, b, i);
    ToBEAt(bits, num, i);
    assert code[..i + 1] == code[..i] + [b];
    FromLEConcat(code[..i], [b]);
    assert FromLE([b]) == b;
  }

  method ReverseBits(bits: nat, num: nat) returns (result: nat)
    ensures result == Rev(bits, num)
  {
    result := 0;
    var i := 0;
    while i < num
      invariant i <= num && result == FromLE(ToBE(bits, num)[..i])
    {
      RevStep(bits, num, i, result);
      result := Or(result, Shl(Shr(bits, num - i - 1) % 2, i));
      i := i + 1;
    }
    assert ToBE(bits, num)[..num] == ToBE(bits, num);
  }

  // ---------- the canonical codes ----------

  /** Code s holds the low lens[s] bits of the canonical code of s. */
  ghost predicate CodesFor(codes: seq<nat>, lens: seq<nat>, n: nat)
  {
    && |codes| == |lens| && n <= |lens|
    && forall s: nat :: s < n && Present(lens, s) ==> codes[s] == Low(Code(lens, s), lens[s])
  }

  method CountLengths(lengths: seq<nat>, maxbitlen: nat) returns (blcount: array<nat>)
    requires forall i :: 0 <= i < |lengths| ==> lengths[i] <= maxbitlen
    ensures fresh(blcount) && blcount.Length == maxbitlen + 1
    ensures forall b :: 0 <= b <= maxbitlen ==> blcount[b] == Count(lengths, b, |lengths|)
  {
    blcount := new nat[maxbitlen + 1](_ => 0);
    var bits := 0;
    while bits != |lengths|
      invariant bits <= |lengths|
      invariant forall b :: 0 <= b <= maxbitlen ==> blcount[b] == Count(lengths, b, bits)
    {
      blcount[lengths[bits]] := blcount[lengths[bits]] + 1;
      bits := bits + 1;
    }
  }

  /** The source counts the absent symbols too; they only reach bits that are masked away. */
  function NextCodeUnmasked(lens: seq<nat>, b: nat): nat
  {
    if b == 0 then 0 else NextCode(lens, b) + Shl(Count(lens, 0, |lens|), b)
  }

  lemma NextCodeStep(lens: seq<nat>, b: nat)
    requires b > 0
    ensures NextCodeUnmasked(lens, b) == 2 * (NextCodeUnmasked(lens, b - 1) + Count(lens, b - 1, |lens|))
  {
    if b == 1 {
      assert Shl(Count(lens, 0, |lens|), 1) == 2 * Count(lens, 0, |lens|);
    }
  }

  lemma MaskedCode(lens: seq<nat>, s: nat)
    requires Present(lens, s)
    ensures Low(NextCodeUnmasked(lens, lens[s]) + Count(lens, lens[s], s), lens[s])
         == Low(Code(lens, s), lens[s])
  {
    LowPlusShl(Code(lens, s), Count(lens, 0, |lens|), lens[s]);
  }

  lemma {:induction false} LowPlusShl(x: nat, h: nat, k: nat)
    ensures Low(x + Shl(h, k), k) == Low(x, k)
  {
    if k > 0 {
      var p := Shl(h, k - 1);
      assert (x + 2 * p) / 2 == x / 2 + p && (x + 2 * p) % 2 == x % 2;
      LowPlusShl(x / 2, h, k - 1);
    }
  }

  method FirstCodes(lengths: seq<nat>, maxbitlen: nat, blcount: array<nat>) returns (nextcode: array<nat>)
    requires blcount.Length == maxbitlen + 1
    requires forall b :: 0 <= b <= maxbitlen ==> blcount[b] == Count(lengths, b, |lengths|)
    ensures fresh(nextcode) && nextcode.Length == maxbitlen + 1
    ensures forall b :: 0 <= b <= maxbitlen ==> nextcode[b] == NextCodeUnmasked(lengths, b)
  {
    nextcode := new nat[maxbitlen + 1](_ => 0);
    var bits := 1;
    while bits <= maxbitlen
      invariant 1 <= bits <= maxbitlen + 1
      invariant forall b :: 0 <= b < bits ==> nextcode[b] == NextCodeUnmasked(lengths, b)
    {
      NextCodeStep(lengths, bits);
      nextcode[bits] := 2 * (nextcode[bits - 1] + blcount[bits - 1]);
      bits := bits + 1;
    }
  }

  method GenerateCodes(lengths: seq<nat>, maxbitlen: nat) returns (codes: seq<nat>)
    requires forall i :: 0 <= i < |lengths| ==> lengths[i] <= maxbitlen
    ensures CodesFor(codes, lengths, |lengths|)
  {
    var blcount := CountLengths(lengths, maxbitlen);
    var nextcode := FirstCodes(lengths, maxbitlen, blcount);
    codes := seq(|lengths|, i => 0);
    var n := 0;
    while n != |lengths|
      invariant n <= |lengths| && |codes| == |lengths|
      invariant forall b :: 1 <= b <= maxbitlen ==>
                  nextcode[b] == NextCodeUnmasked(lengths, b) + Count(lengths, b, n)
      invariant CodesFor(codes, lengths, n)
    {
      var l := lengths[n];
      if l != 0 {
        MaskedCode(lengths, n);
        codes := codes[n := Low(nextcode[l], l)];
        nextcode[l] := nextcode[l] + 1;
      }
      n := n + 1;
    }
  }

  // ---------- the decoding table ----------

  /** The head index, computed from the upper bits of the code. */
  lemma HeadFromCode(lens: seq<nat>, codes: seq<nat>, s: nat)
    requires CodesFor(codes, lens, |lens|) && Present(lens, s) && lens[s] > 9
    ensures Rev(Shr(codes[s], lens[s] - 9), 9) == Head(lens, s)
  {
    var l := lens[s];
    var b := l - 9;
    hide ToBE, Shr, Code, FromLE;
    ToBELow(Code(lens, s), l);
    ToBEPrefix(codes[s], 9, b);
    LowOfPrefix(ToBE(codes[s], l), 9);
  }

  lemma LowOfPrefix(bs: seq<bit>, n: nat)
    requires n <= |bs|
    ensures FromLE(bs[..n]) == Low(FromLE(bs), n)
  {
    assert bs == bs[..n] + bs[n..];
    FromLEConcat(bs[..n], bs[n..]);
    FromLEBound(bs[..n]);
    LowHighUnique(FromLE(bs[..n]), FromLE(bs[n..]), n);
  }

  method ComputeMaxlens(codes: seq<nat>, lengths: seq<nat>) returns (ml: seq<nat>)
    requires ValidLengths(lengths) && CodesFor(codes, lengths, |lengths|)
    ensures IsMaxlens(ml, lengths, |lengths|)
  {
    hide Code, Rev, Low, Shr;
    ml := seq(HEADSIZE, i => 0);
    var i := 0;
    while i < |lengths|
      invariant i <= |lengths| && IsMaxlens(ml, lengths, i)
    {
      var l := lengths[i];
      if l > FIRSTBITS {
        var index := ReverseBits(Shr(codes[i], l - FIRSTBITS), FIRSTBITS);
        HeadFromCode(lengths, codes, i);
        RaiseMaxlen(ml, lengths, i);
        if l > ml[index] {
          ml := ml[index := l];
        }
      } else {
        KeepMaxlens(ml, lengths, i);
      }
      i := i + 1;
    }
  }

  lemma KeepMaxlens(ml: seq<nat>, lens: seq<nat>, n: nat)
    requires IsMaxlens(ml, lens, n) && n < |lens| && lens[n] <= 9
    ensures IsMaxlens(ml, lens, n + 1)
  {
    var m := n + 1;
    forall x | 0 <= x < HEADSIZE && ml[x] > 9
      ensures HasLong(lens, m, x)
    {
      assert HasLong(lens, n, x);
    }
  }

  lemma RaiseMaxlen(ml: seq<nat>, lens: seq<nat>, n: nat)
    requires ValidLengths(lens) && IsMaxlens(ml, lens, n) && n < |lens| && lens[n] > 9
    ensures var x := Head(lens, n);
            IsMaxlens(if lens[n] > ml[x] then ml[x := lens[n]] else ml, lens, n + 1)
  {
    hide Code, Rev, Low;
    var h := Head(lens, n);
    var ml' := if lens[n] > ml[h] then ml[h := lens[n]] else ml;
    var m := n + 1;
    forall x | 0 <= x < HEADSIZE && ml'[x] > 9
      ensures HasLong(lens, m, x)
    {
      if ml[x] > 9 { assert HasLong(lens, n, x); }
    }
  }

  method TableSize(ml: seq<nat>) returns (size: nat)
    requires |ml| == HEADSIZE
    ensures size == PointerTo(ml, HEADSIZE)
  {
    size := HEADSIZE;
    var i := 0;
    while i < HEADSIZE
      invariant i <= HEADSIZE && size == PointerTo(ml, i)
    {
      if ml[i] > FIRSTBITS { size := size + Pow2(ml[i] - FIRSTBITS); }
      i := i + 1;
    }
  }

  /** All entries unused, except the pointers to the secondary tables. */
  ghost predicate OnlyPointers(tl: seq<nat>, tv: seq<nat>, ml: seq<nat>, n: nat)
  {
    && |ml| == HEADSIZE && |tl| == |tv| == PointerTo(ml, HEADSIZE) && n <= HEADSIZE
    && (forall x :: 0 <= x < n && ml[x] > 9 ==> tl[x] == ml[x] && tv[x] == PointerTo(ml, x))
    && (forall x :: 0 <= x < |tl| && !(x < n && ml[x] > 9) ==> tl[x] == UNUSED)
  }

  lemma PointerZero(ml: seq<nat>)
    ensures PointerTo(ml, 0) == HEADSIZE
  {
  }

  lemma PointerStep(ml: seq<nat>, i: nat)
    requires i < |ml|
    ensures PointerTo(ml, i + 1) == PointerTo(ml, i) + if ml[i] > 9 then Pow2(ml[i] - 9) else 0
  {
  }

  method SetPointers(ml: seq<nat>, tl: array<nat>, tv: array<nat>)
    requires |ml| == HEADSIZE && tl != tv && tl.Length == tv.Length >= HEADSIZE
    requires forall x :: 0 <= x < tl.Length ==> tl[x] == UNUSED
    modifies tl, tv
    ensures forall x :: 0 <= x < HEADSIZE && ml[x] > 9 ==> tl[x] == ml[x] && tv[x] == PointerTo(ml, x)
    ensures forall x :: 0 <= x < tl.Length && !(x < HEADSIZE && ml[x] > 9) ==> tl[x] == UNUSED
  {
    hide Pow2, PointerTo;
    PointerZero(ml);
    var pointer := HEADSIZE;
    var i := 0;
    while i < HEADSIZE
      invariant i <= HEADSIZE && pointer == PointerTo(ml, i)
      invariant forall x :: 0 <= x < i && ml[x] > 9 ==> tl[x] == ml[x] && tv[x] == PointerTo(ml, x)
      invariant forall x :: 0 <= x < tl.Length && !(x < i && ml[x] > 9) ==> tl[x] == UNUSED
    {
      PointerStep(ml, i);
      if ml[i] > FIRSTBITS {
        tl[i] := ml[i];
        tv[i] := pointer;
        pointer := pointer + Pow2(ml[i] - FIRSTBITS);
      }
      i := i + 1;
    }
  }

  method InitTable(ml: seq<nat>) returns (tl: array<nat>, tv: array<nat>)
    requires |ml| == HEADSIZE
    ensures fresh(tl) && fresh(tv) && tl != tv
    ensures OnlyPointers(tl[..], tv[..], ml, HEADSIZE)
  {
    hide PointerTo;
    var size := TableSize(ml);
    tl := new nat[size](_ => UNUSED);
    tv := new nat[size];
    SetPointers(ml, tl, tv);
  }

  lemma NothingFilled(tl: seq<nat>, tv: seq<nat>, ml: seq<nat>, lens: seq<nat>, n: nat)
    requires OnlyPointers(tl, tv, ml, HEADSIZE) && n == 0
    ensures Filled(tl, tv, ml, lens, n)
  {
    assert Heads(tl, tv, ml);
    forall w: nat | w < FULL
      ensures Sound(tl, tv, ml, lens, n, w)
    {
    }
  }

  // ---------- placing one symbol ----------

  /** Entry j of the symbol whose reversed code is r: r in the low l bits, j above. */
  lemma IndexParts(r: nat, j: nat, l: nat, t: nat)
    requires r < Pow2(l) && j < Pow2(t)
    ensures Or(r, Shl(j, l)) < Pow2(l + t)
    ensures forall x: nat :: Low(x, l) == r && Shr(x, l) == j <==> x == Or(r, Shl(j, l))
  {
    OrDisjoint(r, j, l);
    LowHighUnique(r, j, l);
    ShlMono(j, Pow2(t), l);
    ShlPow2(t, l);
    assert t + l == l + t;
    forall x: nat | Low(x, l) == r && Shr(x, l) == j
      ensures x == Or(r, Shl(j, l))
    {
      LowHigh(x, l);
    }
  }

  method FillShort(tl: array<nat>, tv: array<nat>, s: nat, l: nat, r: nat) returns (ok: bool)
    requires tl != tv && tl.Length == tv.Length >= HEADSIZE
    requires 1 <= l <= 9 && r < Pow2(l)
    modifies tl, tv
    ensures ok ==> ShortPlaced(old(tl[..]), old(tv[..]), tl[..], tv[..], s, l, r)
    ensures !ok ==> exists x: nat :: x < HEADSIZE && Low(x, l) == r && old(tl[x]) != UNUSED
  {
    FullIsPow2();
    hide Pow2, Low, Shr, Shl, Or;
    var num := Pow2(FIRSTBITS - l);
    var j := 0;
    ghost var tl0, tv0 := tl[..], tv[..];
    while j < num
      invariant j <= num
      invariant forall x: nat :: x < HEADSIZE && Low(x, l) == r && Shr(x, l) < j ==>
                  tl0[x] == UNUSED && tl[x] == l && tv[x] == s
      invariant forall x: nat :: x < tl.Length && !(x < HEADSIZE && Low(x, l) == r && Shr(x, l) < j) ==>
                  tl[x] == tl0[x] && tv[x] == tv0[x]
    {
      IndexParts(r, j, l, FIRSTBITS - l);
      var index := Or(r, Shl(j, l));
      if tl[index] != UNUSED {
        return false;
      }
      tl[index] := l;
      tv[index] := s;
      j := j + 1;
    }
    forall x: nat | x < HEADSIZE
      ensures Shr(x, l) < num
    {
      ShrBound(x, l, FIRSTBITS - l);
    }
    ok := true;
  }

  method FillLong(tl: array<nat>, tv: array<nat>, s: nat, l: nat, r2: nat, p: nat, t: nat)
    requires tl != tv && tl.Length == tv.Length && p + Pow2(t) <= tl.Length
    requires 9 < l && l - 9 <= t && r2 < Pow2(l - 9)
    modifies tl, tv
    ensures LongPlaced(old(tl[..]), old(tv[..]), tl[..], tv[..], s, l, r2, p, t)
  {
    hide Pow2, Low, Shr, Shl, Or;
    var b := l - FIRSTBITS;
    var num := Pow2(t - b);
    var j := 0;
    ghost var tl0, tv0 := tl[..], tv[..];
    while j < num
      invariant j <= num
      invariant forall q: nat :: p <= q < p + Pow2(t) && Low(q - p, b) == r2 && Shr(q - p, b) < j ==>
                  tl[q] == l && tv[q] == s
      invariant forall q: nat :: q < tl.Length && !(p <= q < p + Pow2(t) && Low(q - p, b) == r2 && Shr(q - p, b) < j) ==>
                  tl[q] == tl0[q] && tv[q] == tv0[q]
    {
      IndexParts(r2, j, b, t - b);
      var index2 := p + Or(r2, Shl(j, b));
      assert index2 - p == Or(r2, Shl(j, b));
      tl[index2] := l;
      tv[index2] := s;
      j := j + 1;
    }
    forall y: nat | y < Pow2(t)
      ensures Shr(y, b) < num
    {
      ShrBound(y, b, t - b);
    }
  }

  /** The reversed code, from the masked one. */
  lemma ReversedCode(lens: seq<nat>, codes: seq<nat>, s: nat)
    requires CodesFor(codes, lens, |lens|) && Present(lens, s)
    ensures Rev(codes[s], lens[s]) == Rev(Code(lens, s), lens[s]) < Pow2(lens[s])
  {
    hide Code, ToBE, Low, FromLE;
    ToBELow(Code(lens, s), lens[s]);
    FromLEBound(ToBE(codes[s], lens[s]));
  }

  /** The entry that the head of a long symbol points to. */
  lemma LongTarget(tl: seq<nat>, tv: seq<nat>, ml: seq<nat>, lens: seq<nat>, s: nat)
    requires IsMaxlens(ml, lens, |lens|) && Heads(tl, tv, ml)
    requires Present(lens, s) && lens[s] > 9
    ensures var x := Head(lens, s);
            && |tl| >= HEADSIZE
            && tl[x] == ml[x] >= lens[s] && tv[x] == PointerTo(ml, x) && tv[x] + Pow2(tl[x] - 9) <= |tl|
  {
    hide Code, Rev, Low, PointerTo, Pow2;
    BlockFits(ml, Head(lens, s));
  }

  /** Places one long symbol; the head entry is always long enough, so the source's second
      error return is never taken. */
  method PlaceLongSymbol(tl: array<nat>, tv: array<nat>, ghost ml: seq<nat>, ghost lens: seq<nat>,
                         i: nat, l: nat, reverse: nat)
    requires tl != tv && IsMaxlens(ml, lens, |lens|) && Filled(tl[..], tv[..], ml, lens, i)
    requires Present(lens, i) && l == lens[i] && 9 < l <= MAX_BITS
    requires reverse == Rev(Code(lens, i), l) < Pow2(l)
    modifies tl, tv
    ensures Filled(tl[..], tv[..], ml, lens, i + 1)
  {
    hide Code, Rev, Low, Shr, Pow2, PointerTo, Filled, LongPlaced;
    ghost var tl0, tv0 := tl[..], tv[..];
    FilledHeads(tl0, tv0, ml, lens, i);
    LongTarget(tl0, tv0, ml, lens, i);
    var index := Low(reverse, FIRSTBITS);
    var maxlen, start := tl[index], tv[index];
    assert maxlen >= l;
    ShrBound(reverse, FIRSTBITS, l - FIRSTBITS);
    FillLong(tl, tv, i, l, Shr(reverse, FIRSTBITS), start, maxlen - FIRSTBITS);
    PlaceLong(tl0, tv0, tl[..], tv[..], ml, lens, i, l, Shr(reverse, FIRSTBITS), index);
  }

  lemma FilledHeads(tl: seq<nat>, tv: seq<nat>, ml: seq<nat>, lens: seq<nat>, n: nat)
    requires Filled(tl, tv, ml, lens, n)
    ensures Heads(tl, tv, ml) && |tl| == |tv| >= HEADSIZE
  {
  }

  method PlaceShortSymbol(tl: array<nat>, tv: array<nat>, ghost ml: seq<nat>, ghost lens: seq<nat>,
                          i: nat, l: nat, reverse: nat) returns (ok: bool)
    requires tl != tv && ValidLengths(lens) && IsMaxlens(ml, lens, |lens|) && Filled(tl[..], tv[..], ml, lens, i)
    requires Present(lens, i) && l == lens[i] <= 9
    requires reverse == Rev(Code(lens, i), l) < Pow2(l)
    modifies tl, tv
    ensures ok ==> Filled(tl[..], tv[..], ml, lens, i + 1)
    ensures !ok ==> !Accepted(lens)
  {
    hide Code, Rev, Low, Shr, Pow2, PointerTo, Filled, ShortPlaced, Accepted;
    ghost var tl0, tv0 := tl[..], tv[..];
    FilledHeads(tl0, tv0, ml, lens, i);
    ok := FillShort(tl, tv, i, l, reverse);
    if ok {
      PlaceShort(tl0, tv0, tl[..], tv[..], ml, lens, i);
    } else {
      ghost var x: nat :| x < HEADSIZE && Low(x, l) == reverse && tl0[x] != UNUSED;
      CollisionRejected(tl0, tv0, ml, lens, i, x);
    }
  }

  /** Fills the table symbol by symbol; fails only on lengths that are not accepted. */
  method FillSymbols(tl: array<nat>, tv: array<nat>, ghost ml: seq<nat>, codes: seq<nat>, lens: seq<nat>)
    returns (ok: bool, numpresent: nat)
    requires tl != tv && ValidLengths(lens) && CodesFor(codes, lens, |lens|)
    requires IsMaxlens(ml, lens, |lens|) && Filled(tl[..], tv[..], ml, lens, 0)
    modifies tl, tv
    ensures ok ==> Filled(tl[..], tv[..], ml, lens, |lens|) && numpresent == NumPresent(lens, |lens|)
    ensures !ok ==> !Accepted(lens)
  {
    hide Code, Rev, Low, Filled, IsMaxlens, Accepted, CodesFor;
    numpresent := 0;
    CodesLength(codes, lens);
    var i := 0;
    while i < |lens|
      invariant i <= |lens| && numpresent == NumPresent(lens, i)
      invariant Filled(tl[..], tv[..], ml, lens, i)
    {
      var l := lens[i];
      if l == 0 {
        PlaceNone(tl[..], tv[..], ml, lens, i);
      } else {
        ReversedCode(lens, codes, i);
        var reverse := ReverseBits(codes[i], l);
        numpresent := numpresent + 1;
        if l <= FIRSTBITS {
          ok := PlaceShortSymbol(tl, tv, ml, lens, i, l, reverse);
          if !ok {
            return;
          }
        } else {
          PlaceLongSymbol(tl, tv, ml, lens, i, l, reverse);
        }
      }
      i := i + 1;
    }
    ok := true;
  }

  lemma CodesLength(codes: seq<nat>, lens: seq<nat>)
    requires CodesFor(codes, lens, |lens|)
    ensures |codes| == |lens|
  {
  }

  // ---------- finishing the table ----------

  method PatchUnused(tl: array<nat>, tv: array<nat>)
    requires tl != tv && tl.Length == tv.Length
    modifies tl, tv
    ensures Patched(old(tl[..]), old(tv[..]), tl[..], tv[..])
  {
    var i := 0;
    while i < tl.Length
      invariant i <= tl.Length
      invariant forall q :: i <= q < tl.Length ==> tl[q] == old(tl[q]) && tv[q] == old(tv[q])
      invariant forall q :: 0 <= q < i ==>
                  if old(tl[q]) == UNUSED
                  then tl[q] == (if q < HEADSIZE then 1 else FIRSTBITS + 1) && tv[q] == INVALIDSYMBOL
                  else tl[q] == old(tl[q]) && tv[q] == old(tv[q])
    {
      if tl[i] == UNUSED {
        tl[i] := if i < HEADSIZE then 1 else FIRSTBITS + 1;
        tv[i] := INVALIDSYMBOL;
      }
      i := i + 1;
    }
  }

  method AllUsed(tl: array<nat>) returns (ok: bool)
    ensures ok <==> forall q :: 0 <= q < tl.Length ==> tl[q] != UNUSED
  {
    var i := 0;
    while i < tl.Length
      invariant i <= tl.Length && forall q :: 0 <= q < i ==> tl[q] != UNUSED
    {
      if tl[i] == UNUSED {
        return false;
      }
      i := i + 1;
    }
    ok := true;
  }

  lemma NothingToPatch(tl: seq<nat>, tv: seq<nat>)
    requires |tl| == |tv| && forall q :: 0 <= q < |tl| ==> tl[q] != UNUSED
    ensures Patched(tl, tv, tl, tv)
  {
  }

  /** Two or more symbols: accepted exactly when every entry is used. */
  lemma AcceptedWhenFull(tl: seq<nat>, tv: seq<nat>, ml: seq<nat>, lens: seq<nat>)
    requires ValidLengths(lens) && |lens| <= 512 && NumPresent(lens, |lens|) >= 2
    requires IsMaxlens(ml, lens, |lens|) && Filled(tl, tv, ml, lens, |lens|)
    ensures Accepted(lens) <==> forall q :: 0 <= q < |tl| ==> tl[q] != UNUSED
  {
    hide IsMaxlens, Filled, Kraft;
    if q :| 0 <= q < |tl| && tl[q] == UNUSED {
      UnusedEntryRejected(tl, tv, ml, lens, q);
    } else {
      FullTableAccepted(tl, tv, ml, lens);
    }
  }

  method FinishTable(tl: array<nat>, tv: array<nat>, ghost ml: seq<nat>, ghost lens: seq<nat>, numpresent: nat)
    returns (ok: bool)
    requires tl != tv && ValidLengths(lens) && |lens| <= 512 && numpresent == NumPresent(lens, |lens|)
    requires IsMaxlens(ml, lens, |lens|) && Filled(tl[..], tv[..], ml, lens, |lens|)
    modifies tl, tv
    ensures ok <==> Accepted(lens)
    ensures ok ==> Decodes(tl[..], tv[..], lens)
  {
    hide IsMaxlens, Filled, Kraft, Decodes, Patched;
    ghost var tl0, tv0 := tl[..], tv[..];
    FilledHeads(tl0, tv0, ml, lens, |lens|);
    if numpresent < 2 {
      PatchUnused(tl, tv);
      TableDecodes(tl0, tv0, tl[..], tv[..], ml, lens);
      ok := true;
    } else {
      AcceptedWhenFull(tl0, tv0, ml, lens);
      ok := AllUsed(tl);
      if ok {
        NothingToPatch(tl0, tv0);
        TableDecodes(tl0, tv0, tl0, tv0, ml, lens);
      }
    }
  }

  // ---------- the tree ----------

  class HuffmanTree {
    var codes: seq<nat>
    var lengths: seq<nat>
    var tableLen: seq<nat>
    var tableValue: seq<nat>

    constructor ()
    {
      codes, lengths, tableLen, tableValue := [], [], [], [];
    }

    /** The tree of accepted lengths: canonical codes, and a table that decodes them. */
    ghost predicate Ready(lens: seq<nat>)
      reads this
    {
      && lengths == lens
      && ValidLengths(lens) && Accepted(lens)
      && CodesFor(codes, lens, |lens|)
      && Decodes(tableLen, tableValue, lens)
    }

    method MakeTable() returns (error: nat)
      requires ValidLengths(lengths) && |lengths| <= 512 && CodesFor(codes, lengths, |lengths|)
      modifies this`tableLen, this`tableValue
      ensures error == 0 || error == 55
      ensures error == 0 <==> Accepted(lengths)
      ensures error == 0 ==> Decodes(tableLen, tableValue, lengths)
    {
      hide CodesFor, Accepted, Decodes, Filled, IsMaxlens;
      var ml := ComputeMaxlens(codes, lengths);
      MaxlensLength(ml, lengths);
      var tl, tv := InitTable(ml);
      NothingFilled(tl[..], tv[..], ml, lengths, 0);
      var ok, numpresent := FillSymbols(tl, tv, ml, codes, lengths);
      if !ok {
        return 55;
      }
      ok := FinishTable(tl, tv, ml, lengths, numpresent);
      if !ok {
        return 55;
      }
      tableLen, tableValue := tl[..], tv[..];
      error := 0;
    }

    lemma MaxlensLength(ml: seq<nat>, lens: seq<nat>)
      requires IsMaxlens(ml, lens, |lens|)
      ensures |ml| == HEADSIZE
    {
    }

    /** Builds codes and table for the lengths already in place. */
    method MakeFromLengths2(maxbitlen: nat) returns (error: nat)
      requires maxbitlen <= MAX_BITS && |lengths| <= 512
      requires forall i :: 0 <= i < |lengths| ==> lengths[i] <= maxbitlen
      modifies this
      ensures lengths == old(lengths) && ValidLengths(lengths)
      ensures error == 0 || error == 55
      ensures error == 0 <==> Accepted(lengths)
      ensures error == 0 ==> Ready(lengths)
    {
      codes := GenerateCodes(lengths, maxbitlen);
      error := MakeTable();
    }

    /** The error is 55 exactly when the lengths are not those of a complete prefix code. */
    method MakeFromLengths(bitlen: seq<nat>, maxbitlen: nat) returns (error: nat)
      requires maxbitlen <= MAX_BITS && |bitlen| <= 512
      requires forall i :: 0 <= i < |bitlen| ==> bitlen[i] <= maxbitlen
      modifies this
      ensures ValidLengths(bitlen)
      ensures error == 0 || error == 55
      ensures error == 0 <==> Accepted(bitlen)
      ensures error == 0 ==> Ready(bitlen)
    {
      lengths := bitlen;
      error := MakeFromLengths2(maxbitlen);
    }
  }
}
