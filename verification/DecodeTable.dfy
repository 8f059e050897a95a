/**
 The two-level decoding table as pure data: where the entry for the next stream bits lies, what
 it means for the table to be filled with the first n symbols, and what a completely filled
 table says about the code lengths.

 Entry x below 512 is addressed by the first nine stream bits. When a longer code starts with
 them, the entry points to a secondary table addressed by the bits that follow.
 */
module DecodeTables {
  import opened Bits
  import opened Canonical
  import opened PrefixCodes

  const FIRSTBITS: nat := 9
  const HEADSIZE: nat := 512
  const UNUSED: nat := 16
  const INVALIDSYMBOL: nat := 65535

  // ---------- layout ----------

  /** The 9 stream bits that a long symbol starts with. */
  function Head(lens: seq<nat>, s: nat): (x: nat)
    requires Present(lens, s)
    ensures x < HEADSIZE
  {
    FullIsPow2();
    LowBound(Rev(Code(lens, s), lens[s]), 9);
    Low(Rev(Code(lens, s), lens[s]), 9)
  }

  /** ml[x] is the longest code that starts with x, if that is longer than nine bits. */
  ghost predicate IsMaxlens(ml: seq<nat>, lens: seq<nat>, n: nat)
  {
    && |ml| == HEADSIZE
    && n <= |lens|
    && (forall x :: 0 <= x < HEADSIZE ==> ml[x] <= MAX_BITS)
    && (forall s: nat :: s < n && Present(lens, s) && lens[s] > 9 ==> ml[Head(lens, s)] >= lens[s])
    && (forall x :: 0 <= x < HEADSIZE && ml[x] > 9 ==> HasLong(lens, n, x))
  }

  ghost predicate HasLong(lens: seq<nat>, n: nat, x: nat)
  {
    exists s: nat :: s < n && Present(lens, s) && lens[s] > 9 && Head(lens, s) == x
  }

  /** Where the secondary table of entry x starts: after all earlier ones. */
  function PointerTo(ml: seq<nat>, x: nat): (p: nat)
    requires x <= |ml|
    ensures p >= HEADSIZE
  {
    if x == 0 then HEADSIZE
    else PointerTo(ml, x - 1) + if ml[x - 1] > 9 then Pow2(ml[x - 1] - 9) else 0
  }

  lemma {:induction false} PointerMono(ml: seq<nat>, x: nat, z: nat)
    requires x <= z <= |ml|
    ensures PointerTo(ml, x) <= PointerTo(ml, z)
  {
    if x < z {
      PointerMono(ml, x, z - 1);
    }
  }

  /** A secondary table lies inside the table. */
  lemma BlockFits(ml: seq<nat>, x: nat)
    requires |ml| == HEADSIZE && x < HEADSIZE && ml[x] > 9
    ensures PointerTo(ml, x) + Pow2(ml[x] - 9) <= PointerTo(ml, HEADSIZE)
  {
    PointerMono(ml, x + 1, HEADSIZE);
  }

  /** The table stays small enough for the 16-bit entries that point into it. */
  lemma {:induction false} PointerBound(ml: seq<nat>, x: nat)
    requires x <= |ml| && forall k :: 0 <= k < |ml| ==> ml[k] <= MAX_BITS
    ensures PointerTo(ml, x) <= HEADSIZE + 64 * x
  {
    if x > 0 {
      PointerBound(ml, x - 1);
      if ml[x - 1] > 9 {
        Pow2Mono(ml[x - 1] - 9, 6);
        assert Pow2(6) == 64;
      }
    }
  }

  /** The entry for the next 15 stream bits w. */
  function Loc(ml: seq<nat>, w: nat): (q: nat)
    requires |ml| == HEADSIZE
    ensures q < PointerTo(ml, HEADSIZE)
    ensures q < HEADSIZE <==> ml[HeadOf(w)] <= 9
  {
    var x := HeadOf(w);
    PointerMono(ml, x + 1, HEADSIZE);
    if ml[x] <= 9 then x
    else
      LowBound(Shr(w, 9), ml[x] - 9);
      PointerTo(ml, x) + Low(Shr(w, 9), ml[x] - 9)
  }

  function HeadOf(w: nat): (x: nat)
    ensures x < HEADSIZE
  {
    FullIsPow2();
    LowBound(w, 9);
    Low(w, 9)
  }

  /** Which secondary table a position past the first table belongs to. */
  lemma {:induction false} BlockAt(ml: seq<nat>, q: nat, z: nat) returns (x: nat)
    requires z <= |ml| && HEADSIZE <= q < PointerTo(ml, z)
    ensures x < z && ml[x] > 9 && PointerTo(ml, x) <= q < PointerTo(ml, x) + Pow2(ml[x] - 9)
  {
    if q >= PointerTo(ml, z - 1) {
      x := z - 1;
    } else {
      x := BlockAt(ml, q, z - 1);
    }
  }

  /** Every position that is not a pointer is the entry of some stream bits. */
  lemma LocOnto(ml: seq<nat>, q: nat) returns (w: nat)
    requires |ml| == HEADSIZE && forall k :: 0 <= k < HEADSIZE ==> ml[k] <= MAX_BITS
    requires q < PointerTo(ml, HEADSIZE) && (q < HEADSIZE ==> ml[q] <= 9)
    ensures w < FULL && Loc(ml, w) == q
  {
    FullIsPow2();
    if q < HEADSIZE {
      w := q;
      LowSmall(q, 9);
    } else {
      var x := BlockAt(ml, q, HEADSIZE);
      var y := q - PointerTo(ml, x);
      w := x + Shl(y, 9);
      LowHighUnique(x, y, 9);
      LowSmall(y, ml[x] - 9);
      Pow2Mono(ml[x] - 9, 6);
      ShlMono(y, Pow2(6), 9);
      ShlPow2(6, 9);
    }
  }

  /** Secondary tables do not overlap. */
  lemma LocInjective(ml: seq<nat>, x: nat, y: nat, w: nat)
    requires |ml| == HEADSIZE && x < HEADSIZE && ml[x] > 9 && y < Pow2(ml[x] - 9)
    requires Loc(ml, w) == PointerTo(ml, x) + y
    ensures HeadOf(w) == x && Low(Shr(w, 9), ml[x] - 9) == y
  {
    var x' := HeadOf(w);
    LowBound(Shr(w, 9), ml[x'] - 9);
    if x' < x {
      PointerMono(ml, x' + 1, x);
    } else if x < x' {
      PointerMono(ml, x + 1, x');
    }
  }

  // ---------- filling ----------

  /** Matching in terms of the two table indices. */
  lemma MatchesShort(lens: seq<nat>, s: nat, w: nat)
    requires Present(lens, s) && lens[s] <= 9
    ensures Matches(lens, s, w) <==> Low(HeadOf(w), lens[s]) == Rev(Code(lens, s), lens[s])
  {
    LowLow(w, lens[s], 9);
  }

  lemma MatchesLong(lens: seq<nat>, s: nat, w: nat)
    requires Present(lens, s) && lens[s] > 9
    ensures var r := Rev(Code(lens, s), lens[s]);
            Matches(lens, s, w) <==> HeadOf(w) == Head(lens, s) && Low(Shr(w, 9), lens[s] - 9) == Shr(r, 9)
  {
    var l := lens[s];
    var r := Rev(Code(lens, s), l);
    var b := l - 9;
    LowSplit(w, 9, b);
    LowHigh(r, 9);
    LowBound(w, 9);
    LowBound(r, 9);
    LowHighUnique(Low(w, 9), Low(Shr(w, 9), b), 9);
    LowHighUnique(Low(r, 9), Shr(r, 9), 9);
    assert Low(w, 9 + b) == Low(w, l);
  }

  ghost predicate Heads(tl: seq<nat>, tv: seq<nat>, ml: seq<nat>)
  {
    && |ml| == HEADSIZE
    && |tl| == |tv| == PointerTo(ml, HEADSIZE)
    && forall x :: 0 <= x < HEADSIZE && ml[x] > 9 ==> tl[x] == ml[x] && tv[x] == PointerTo(ml, x)
  }

  /** A used entry holds a processed symbol that the stream starts with. */
  ghost predicate Sound(tl: seq<nat>, tv: seq<nat>, ml: seq<nat>, lens: seq<nat>, n: nat, w: nat)
    requires Heads(tl, tv, ml)
  {
    var q := Loc(ml, w);
    PointerMono(ml, 0, HEADSIZE);
    tl[q] != UNUSED ==> tv[q] < n && Matches(lens, tv[q], w) && tl[q] == lens[tv[q]]
  }

  /** A stream that starts with a processed symbol has a used entry, its own if the code is short. */
  ghost predicate Holds(tl: seq<nat>, tv: seq<nat>, ml: seq<nat>, lens: seq<nat>, s: nat, w: nat)
    requires Heads(tl, tv, ml)
  {
    var q := Loc(ml, w);
    Matches(lens, s, w) ==>
      && tl[q] != UNUSED
      && (lens[s] <= 9 ==> ml[HeadOf(w)] <= 9 && tv[q] == s)
  }

  ghost predicate Filled(tl: seq<nat>, tv: seq<nat>, ml: seq<nat>, lens: seq<nat>, n: nat)
  {
    && Heads(tl, tv, ml)
    && (forall w: nat :: w < FULL ==> Sound(tl, tv, ml, lens, n, w))
    && (forall s: nat, w: nat :: s < n && w < FULL ==> Holds(tl, tv, ml, lens, s, w))
  }

  /** What placing symbol n must do to the entry of w: write it exactly when w starts with it. */
  ghost predicate Placed(tl: seq<nat>, tv: seq<nat>, tl': seq<nat>, tv': seq<nat>,
                         ml: seq<nat>, lens: seq<nat>, n: nat, w: nat)
    requires Heads(tl, tv, ml) && Heads(tl', tv', ml) && n < |lens|
  {
    var q := Loc(ml, w);
    if Matches(lens, n, w) then
      && tl'[q] == lens[n] && tv'[q] == n
      && (lens[n] <= 9 ==> ml[HeadOf(w)] <= 9 && tl[q] == UNUSED)
    else
      tl'[q] == tl[q] && tv'[q] == tv[q]
  }

  lemma SoundStep(tl: seq<nat>, tv: seq<nat>, tl': seq<nat>, tv': seq<nat>,
                  ml: seq<nat>, lens: seq<nat>, n: nat, w: nat)
    requires Heads(tl, tv, ml) && Heads(tl', tv', ml) && n < |lens|
    requires Sound(tl, tv, ml, lens, n, w) && Placed(tl, tv, tl', tv', ml, lens, n, w)
    ensures Sound(tl', tv', ml, lens, n + 1, w)
  {
  }

  lemma HoldsStep(tl: seq<nat>, tv: seq<nat>, tl': seq<nat>, tv': seq<nat>,
                  ml: seq<nat>, lens: seq<nat>, n: nat, s: nat, w: nat)
    requires Heads(tl, tv, ml) && Heads(tl', tv', ml) && n < |lens| && lens[n] <= MAX_BITS && s <= n
    requires s < n ==> Holds(tl, tv, ml, lens, s, w)
    requires Placed(tl, tv, tl', tv', ml, lens, n, w)
    requires n < |lens| && lens[n] > 9 && s < n && Matches(lens, s, w) && Matches(lens, n, w) && lens[s] <= 9 ==>
               ml[HeadOf(w)] > 9
    ensures Holds(tl', tv', ml, lens, s, w)
  {
    hide Matches;
  }

  lemma PlaceSymbol(tl: seq<nat>, tv: seq<nat>, tl': seq<nat>, tv': seq<nat>, ml: seq<nat>, lens: seq<nat>, n: nat)
    requires Filled(tl, tv, ml, lens, n) && Heads(tl', tv', ml)
    requires n < |lens| && lens[n] <= MAX_BITS
    requires forall w: nat :: w < FULL ==> Placed(tl, tv, tl', tv', ml, lens, n, w)
    requires lens[n] > 9 ==> ml[Head(lens, n)] > 9
    ensures Filled(tl', tv', ml, lens, n + 1)
  {
    var m := n + 1;
    forall w: nat | w < FULL
      ensures Sound(tl', tv', ml, lens, m, w)
    {
      assert Sound(tl, tv, ml, lens, n, w);
      SoundStep(tl, tv, tl', tv', ml, lens, n, w);
    }
    forall s: nat, w: nat | s < m && w < FULL
      ensures Holds(tl', tv', ml, lens, s, w)
    {
      if s < n { assert Holds(tl, tv, ml, lens, s, w); }
      if lens[n] > 9 { MatchesLong(lens, n, w); }
      HoldsStep(tl, tv, tl', tv', ml, lens, n, s, w);
    }
  }

  /** What placing a short symbol does to the table. */
  ghost predicate ShortPlaced(tl: seq<nat>, tv: seq<nat>, tl': seq<nat>, tv': seq<nat>, s: nat, l: nat, r: nat)
  {
    && |tl'| == |tl| && |tv'| == |tv| && |tl| == |tv| && |tl| >= HEADSIZE
    && (forall x :: 0 <= x < HEADSIZE && Low(x, l) == r ==> tl[x] == UNUSED && tl'[x] == l && tv'[x] == s)
    && (forall x :: 0 <= x < |tl| && !(x < HEADSIZE && Low(x, l) == r) ==> tl'[x] == tl[x] && tv'[x] == tv[x])
  }

  lemma PlaceShort(tl: seq<nat>, tv: seq<nat>, tl': seq<nat>, tv': seq<nat>, ml: seq<nat>, lens: seq<nat>, n: nat)
    requires Filled(tl, tv, ml, lens, n) && forall x :: 0 <= x < HEADSIZE ==> ml[x] <= MAX_BITS
    requires Present(lens, n) && lens[n] <= 9
    requires ShortPlaced(tl, tv, tl', tv', n, lens[n], Rev(Code(lens, n), lens[n]))
    ensures Filled(tl', tv', ml, lens, n + 1)
  {
    assert Heads(tl', tv', ml);
    forall w: nat | w < FULL
      ensures Placed(tl, tv, tl', tv', ml, lens, n, w)
    {
      MatchesShort(lens, n, w);
    }
    PlaceSymbol(tl, tv, tl', tv', ml, lens, n);
  }

  /** What placing a long symbol does to the secondary table at p. */
  ghost predicate LongPlaced(tl: seq<nat>, tv: seq<nat>, tl': seq<nat>, tv': seq<nat>,
                             s: nat, l: nat, r2: nat, p: nat, t: nat)
  {
    && l > 9 && |tl'| == |tl| && |tv'| == |tv| && |tl| == |tv| && p + Pow2(t) <= |tl|
    && (forall q: nat :: p <= q < p + Pow2(t) && Low(q - p, l - 9) == r2 ==> tl'[q] == l && tv'[q] == s)
    && (forall q: nat :: q < |tl| && !(p <= q < p + Pow2(t) && Low(q - p, l - 9) == r2) ==>
          tl'[q] == tl[q] && tv'[q] == tv[q])
  }

  /** The part that is written for the front (x, r2) holds the entries of exactly those streams. */
  lemma LongTouches(ml: seq<nat>, x: nat, l: nat, r2: nat, p: nat, w: nat)
    requires |ml| == HEADSIZE && x < HEADSIZE && 9 < l <= ml[x] && p == PointerTo(ml, x)
    ensures (HeadOf(w) == x && Low(Shr(w, 9), l - 9) == r2)
       <==> (p <= Loc(ml, w) < p + Pow2(ml[x] - 9) && Low(Loc(ml, w) - p, l - 9) == r2)
  {
    LowLow(Shr(w, 9), l - 9, ml[x] - 9);
    LowBound(Shr(w, 9), ml[x] - 9);
    if p <= Loc(ml, w) < p + Pow2(ml[x] - 9) {
      LocInjective(ml, x, Loc(ml, w) - p, w);
    }
  }

  lemma HeadsKept(tl: seq<nat>, tv: seq<nat>, tl': seq<nat>, tv': seq<nat>, ml: seq<nat>, s: nat, l: nat, r2: nat, x: nat)
    requires |ml| == HEADSIZE && x < HEADSIZE && ml[x] > 9 && Heads(tl, tv, ml)
    requires LongPlaced(tl, tv, tl', tv', s, l, r2, PointerTo(ml, x), ml[x] - 9)
    ensures Heads(tl', tv', ml)
  {
  }

  lemma LongEntry(tl: seq<nat>, tv: seq<nat>, tl': seq<nat>, tv': seq<nat>, ml: seq<nat>,
                  s: nat, l: nat, r2: nat, x: nat, w: nat)
    requires |ml| == HEADSIZE && x < HEADSIZE && 9 < l <= ml[x] && Heads(tl, tv, ml)
    requires LongPlaced(tl, tv, tl', tv', s, l, r2, PointerTo(ml, x), ml[x] - 9)
    ensures var q := Loc(ml, w);
            if HeadOf(w) == x && Low(Shr(w, 9), l - 9) == r2 then tl'[q] == l && tv'[q] == s
            else tl'[q] == tl[q] && tv'[q] == tv[q]
  {
    hide Low, Shr, Pow2, PointerTo;
    LongTouches(ml, x, l, r2, PointerTo(ml, x), w);
  }

  lemma PlaceLong(tl: seq<nat>, tv: seq<nat>, tl': seq<nat>, tv': seq<nat>, ml: seq<nat>, lens: seq<nat>, n: nat,
                  l: nat, r2: nat, x: nat)
    requires Filled(tl, tv, ml, lens, n)
    requires Present(lens, n) && l == lens[n] && x == Head(lens, n) && 9 < l <= ml[x] && l <= MAX_BITS
    requires r2 == Shr(Rev(Code(lens, n), l), 9)
    requires LongPlaced(tl, tv, tl', tv', n, l, r2, PointerTo(ml, x), ml[x] - 9)
    ensures Filled(tl', tv', ml, lens, n + 1)
  {
    HeadsKept(tl, tv, tl', tv', ml, n, l, r2, x);
    forall w: nat | w < FULL
      ensures Placed(tl, tv, tl', tv', ml, lens, n, w)
    {
      LongEntry(tl, tv, tl', tv', ml, n, l, r2, x, w);
      MatchesLong(lens, n, w);
    }
    PlaceSymbol(tl, tv, tl', tv', ml, lens, n);
  }

  lemma PlaceNone(tl: seq<nat>, tv: seq<nat>, ml: seq<nat>, lens: seq<nat>, n: nat)
    requires Filled(tl, tv, ml, lens, n) && !Present(lens, n)
    ensures Filled(tl, tv, ml, lens, n + 1)
  {
    var m := n + 1;
    forall w: nat | w < FULL
      ensures Sound(tl, tv, ml, lens, m, w)
    {
      assert Sound(tl, tv, ml, lens, n, w);
    }
  }

  // ---------- acceptance ----------

  function NumPresent(lens: seq<nat>, n: nat): (k: nat)
    requires n <= |lens|
    ensures k <= n
  {
    if n == 0 then 0 else NumPresent(lens, n - 1) + if lens[n - 1] > 0 then 1 else 0
  }

  lemma {:induction false} OnePresent(lens: seq<nat>, s: nat, n: nat)
    requires s < n <= |lens| && Present(lens, s)
    ensures NumPresent(lens, n) >= 1
  {
    if s < n - 1 {
      OnePresent(lens, s, n - 1);
    }
  }

  lemma {:induction false} TwoPresent(lens: seq<nat>, s: nat, t: nat, n: nat)
    requires s < t < n <= |lens| && Present(lens, s) && Present(lens, t)
    ensures NumPresent(lens, n) >= 2
  {
    if t < n - 1 {
      TwoPresent(lens, s, t, n - 1);
    } else {
      OnePresent(lens, s, n - 1);
    }
  }

  /** The code lengths a tree is built from without error. */
  ghost predicate Accepted(lens: seq<nat>)
    requires ValidLengths(lens)
  {
    NumPresent(lens, |lens|) < 2 || Kraft(lens) == FULL
  }

  /** Two different symbols at the front of one stream: the lengths are not accepted. */
  lemma ClashRejected(lens: seq<nat>, s: nat, t: nat, w: nat)
    requires ValidLengths(lens) && s != t && Matches(lens, s, w) && Matches(lens, t, w)
    ensures !Accepted(lens)
  {
    if Kraft(lens) <= FULL {
      UniqueMatch(lens, s, t, w);
    }
    if s < t { TwoPresent(lens, s, t, |lens|); } else { TwoPresent(lens, t, s, |lens|); }
  }

  lemma AcceptedUnique(lens: seq<nat>, s: nat, t: nat, w: nat)
    requires ValidLengths(lens) && Accepted(lens)
    requires Matches(lens, s, w) && Matches(lens, t, w)
    ensures s == t
  {
    if s != t {
      ClashRejected(lens, s, t, w);
    }
  }

  /** A symbol's own code, as stream bits. */
  lemma OwnCode(lens: seq<nat>, s: nat) returns (w: nat)
    requires ValidLengths(lens) && Present(lens, s)
    ensures w < FULL && Matches(lens, s, w) && Low(w, 9) == Low(Rev(Code(lens, s), lens[s]), 9)
  {
    w := Rev(Code(lens, s), lens[s]);
    FromLEBound(ToBE(Code(lens, s), lens[s]));
    LowSmall(w, lens[s]);
    Pow2Mono(lens[s], MAX_BITS);
    FullIsPow2();
  }

  /** A short symbol that finds its entry in use: the lengths are over-subscribed. */
  lemma CollisionRejected(tl: seq<nat>, tv: seq<nat>, ml: seq<nat>, lens: seq<nat>, n: nat, x: nat)
    requires ValidLengths(lens) && IsMaxlens(ml, lens, |lens|) && Filled(tl, tv, ml, lens, n)
    requires Present(lens, n) && lens[n] <= 9
    requires x < HEADSIZE && Low(x, lens[n]) == Rev(Code(lens, n), lens[n]) && tl[x] != UNUSED
    ensures !Accepted(lens)
  {
    FullIsPow2();
    LowSmall(x, 9);
    if ml[x] > 9 {
      var t: nat :| t < |lens| && Present(lens, t) && lens[t] > 9 && Head(lens, t) == x;
      var w := OwnCode(lens, t);
      MatchesShort(lens, n, w);
      ClashRejected(lens, n, t, w);
    } else {
      assert Sound(tl, tv, ml, lens, n, x);
      MatchesShort(lens, n, x);
      ClashRejected(lens, n, tv[x], x);
    }
  }

  /** Some symbol is at the front of every stream whose entry is used. */
  lemma UsedMatches(tl: seq<nat>, tv: seq<nat>, ml: seq<nat>, lens: seq<nat>, n: nat, w: nat)
    requires Filled(tl, tv, ml, lens, n) && w < FULL && tl[Loc(ml, w)] != UNUSED
    ensures Matches(lens, tv[Loc(ml, w)], w)
  {
    assert Sound(tl, tv, ml, lens, n, w);
  }

  /** No symbol is at the front of a stream whose entry is unused. */
  lemma UnusedMatches(tl: seq<nat>, tv: seq<nat>, ml: seq<nat>, lens: seq<nat>, s: nat, w: nat)
    requires Filled(tl, tv, ml, lens, |lens|) && w < FULL && tl[Loc(ml, w)] == UNUSED
    ensures !Matches(lens, s, w)
  {
    if s < |lens| {
      assert Holds(tl, tv, ml, lens, s, w);
    }
  }

  /** A filled table never holds a short symbol and another symbol with the same front. */
  lemma NoSharedFront(tl: seq<nat>, tv: seq<nat>, ml: seq<nat>, lens: seq<nat>, s: nat, t: nat, w: nat)
    requires IsMaxlens(ml, lens, |lens|) && Filled(tl, tv, ml, lens, |lens|) && w < FULL
    requires Matches(lens, s, w) && Matches(lens, t, w) && lens[s] <= 9
    ensures s == t
  {
    assert Holds(tl, tv, ml, lens, s, w) && Holds(tl, tv, ml, lens, t, w);
    if lens[t] > 9 {
      MatchesLong(lens, t, w);
    }
  }

  /** A completely used table: the Kraft sum is 1. */
  lemma FullTableAccepted(tl: seq<nat>, tv: seq<nat>, ml: seq<nat>, lens: seq<nat>)
    requires ValidLengths(lens) && |lens| <= 512 && IsMaxlens(ml, lens, |lens|)
    requires Filled(tl, tv, ml, lens, |lens|)
    requires forall q :: 0 <= q < |tl| ==> tl[q] != UNUSED
    ensures Kraft(lens) == FULL
  {
    if Kraft(lens) < FULL {
      var w := NoMatch(lens);
      UsedMatches(tl, tv, ml, lens, |lens|, w);
    } else if Kraft(lens) > FULL {
      var s, t := Oversubscribed(lens);
      NoSharedFront(tl, tv, ml, lens, s, t, 0);
    }
  }

  /** An unused entry: the Kraft sum is not 1. */
  lemma UnusedEntryRejected(tl: seq<nat>, tv: seq<nat>, ml: seq<nat>, lens: seq<nat>, q: nat)
    requires ValidLengths(lens) && IsMaxlens(ml, lens, |lens|)
    requires Filled(tl, tv, ml, lens, |lens|)
    requires q < |tl| && tl[q] == UNUSED
    ensures Kraft(lens) != FULL
  {
    var w := LocOnto(ml, q);
    if Kraft(lens) == FULL {
      var s := SomeMatch(lens, w);
      UnusedMatches(tl, tv, ml, lens, s, w);
    }
  }

  // ---------- looking up ----------

  /** Is the table big enough for every look-up? */
  ghost predicate TableShape(tl: seq<nat>, tv: seq<nat>)
  {
    && |tl| == |tv| >= HEADSIZE
    && forall x :: 0 <= x < HEADSIZE ==> 0 < tl[x] <= MAX_BITS && (tl[x] > 9 ==> tv[x] + Pow2(tl[x] - 9) <= |tl|)
  }

  /** The entry that the two look-ups for the stream bits w end at. */
  function LookupEntry(tl: seq<nat>, tv: seq<nat>, w: nat): (q: nat)
    requires TableShape(tl, tv)
    ensures q < |tl|
  {
    var x := HeadOf(w);
    if tl[x] <= 9 then x
    else
      LowBound(Shr(w, 9), tl[x] - 9);
      tv[x] + Low(Shr(w, 9), tl[x] - 9)
  }

  /** The table decodes exactly the canonical code: a stream that starts with a symbol's code gives
      that symbol and its length, any other stream gives no symbol. All entries fit the 8-bit
      lengths and 16-bit values they are stored in. */
  ghost predicate Decodes(tl: seq<nat>, tv: seq<nat>, lens: seq<nat>)
  {
    && TableShape(tl, tv)
    && (forall q :: 0 <= q < |tl| ==> tl[q] <= MAX_BITS && tv[q] <= INVALIDSYMBOL)
    && forall w: nat :: w < FULL ==> DecodesAt(tl, tv, lens, w)
  }

  ghost predicate DecodesAt(tl: seq<nat>, tv: seq<nat>, lens: seq<nat>, w: nat)
    requires TableShape(tl, tv)
  {
    var q := LookupEntry(tl, tv, w);
    && (tl[HeadOf(w)] > 9 ==> tl[q] > 9)
    && (forall s: nat :: Matches(lens, s, w) ==> tv[q] == s && tl[q] == lens[s])
    && (tv[q] == INVALIDSYMBOL || Matches(lens, tv[q], w))
  }

  /** Unused entries turned into entries that say so; all others as before. */
  ghost predicate Patched(tl: seq<nat>, tv: seq<nat>, tl': seq<nat>, tv': seq<nat>)
  {
    && |tl'| == |tl| == |tv| == |tv'|
    && forall q :: 0 <= q < |tl| ==>
         if tl[q] == UNUSED then tl'[q] == (if q < HEADSIZE then 1 else FIRSTBITS + 1) && tv'[q] == INVALIDSYMBOL
         else tl'[q] == tl[q] && tv'[q] == tv[q]
  }

  /** A used entry of a direct look-up is a short symbol, one of a second look-up a long symbol. */
  lemma UsedLength(tl: seq<nat>, tv: seq<nat>, ml: seq<nat>, lens: seq<nat>, w: nat)
    requires ValidLengths(lens) && IsMaxlens(ml, lens, |lens|) && Filled(tl, tv, ml, lens, |lens|)
    requires w < FULL && tl[Loc(ml, w)] != UNUSED
    ensures var q := Loc(ml, w);
            && 0 < tl[q] <= MAX_BITS && tv[q] < |lens| && Matches(lens, tv[q], w) && tl[q] == lens[tv[q]]
            && (tl[q] > 9 <==> ml[HeadOf(w)] > 9)
  {
    hide Low, Shr, Rev, Code, PointerTo;
    var t := tv[Loc(ml, w)];
    assert Sound(tl, tv, ml, lens, |lens|, w);
    assert Holds(tl, tv, ml, lens, t, w);
    if lens[t] > 9 {
      MatchesLong(lens, t, w);
    }
  }

  lemma LookupIsLoc(tl: seq<nat>, tv: seq<nat>, tl': seq<nat>, tv': seq<nat>, ml: seq<nat>, lens: seq<nat>, w: nat)
    requires ValidLengths(lens) && IsMaxlens(ml, lens, |lens|) && Filled(tl, tv, ml, lens, |lens|)
    requires Patched(tl, tv, tl', tv') && TableShape(tl', tv') && w < FULL
    ensures LookupEntry(tl', tv', w) == Loc(ml, w)
  {
    hide Low, Shr, Rev, Code, PointerTo, Matches, Sound, Holds;
    var x := HeadOf(w);
    if ml[x] <= 9 && tl[x] != UNUSED {
      UsedLength(tl, tv, ml, lens, w);
    }
  }

  lemma PatchedShape(tl: seq<nat>, tv: seq<nat>, tl': seq<nat>, tv': seq<nat>, ml: seq<nat>, lens: seq<nat>, x: nat)
    requires ValidLengths(lens) && IsMaxlens(ml, lens, |lens|) && Filled(tl, tv, ml, lens, |lens|)
    requires Patched(tl, tv, tl', tv') && x < HEADSIZE <= |tl'|
    ensures 0 < tl'[x] <= MAX_BITS && (tl'[x] > 9 ==> tv'[x] + Pow2(tl'[x] - 9) <= |tl'|)
  {
    hide Low, Shr, Rev, Code, Matches, Sound, Holds, PointerTo, Pow2;
    if ml[x] > 9 {
      BlockFits(ml, x);
    } else {
      FullIsPow2();
      LowSmall(x, 9);
      if tl[x] != UNUSED {
        UsedLength(tl, tv, ml, lens, x);
      }
    }
  }

  lemma PatchedBound(tl: seq<nat>, tv: seq<nat>, tl': seq<nat>, tv': seq<nat>, ml: seq<nat>, lens: seq<nat>, q: nat)
    requires ValidLengths(lens) && |lens| <= 512
    requires IsMaxlens(ml, lens, |lens|) && Filled(tl, tv, ml, lens, |lens|)
    requires Patched(tl, tv, tl', tv') && q < |tl'|
    ensures tl'[q] <= MAX_BITS && tv'[q] <= INVALIDSYMBOL
  {
    hide Low, Shr, Rev, Code, Matches, Sound, Holds, PointerTo;
    if q < HEADSIZE && ml[q] > 9 {
      PointerBound(ml, q);
    } else if tl[q] != UNUSED {
      var w := LocOnto(ml, q);
      UsedLength(tl, tv, ml, lens, w);
    }
  }

  lemma PatchedDecodes(tl: seq<nat>, tv: seq<nat>, tl': seq<nat>, tv': seq<nat>, ml: seq<nat>, lens: seq<nat>, w: nat)
    requires ValidLengths(lens) && Accepted(lens)
    requires IsMaxlens(ml, lens, |lens|) && Filled(tl, tv, ml, lens, |lens|)
    requires Patched(tl, tv, tl', tv') && TableShape(tl', tv') && w < FULL
    ensures DecodesAt(tl', tv', lens, w)
  {
    hide Low, Shr, Rev, Code, Matches, Sound, Holds, PointerTo, LookupEntry, Accepted;
    var q := Loc(ml, w);
    LookupIsLoc(tl, tv, tl', tv', ml, lens, w);
    if tl[q] == UNUSED {
      forall s: nat
        ensures !Matches(lens, s, w)
      {
        UnusedMatches(tl, tv, ml, lens, s, w);
      }
    } else {
      UsedLength(tl, tv, ml, lens, w);
      forall s: nat | Matches(lens, s, w)
        ensures s == tv[q]
      {
        AcceptedUnique(lens, s, tv[q], w);
      }
    }
  }

  /** The finished table of accepted lengths decodes the canonical code. */
  lemma TableDecodes(tl: seq<nat>, tv: seq<nat>, tl': seq<nat>, tv': seq<nat>, ml: seq<nat>, lens: seq<nat>)
    requires ValidLengths(lens) && |lens| <= 512 && Accepted(lens)
    requires IsMaxlens(ml, lens, |lens|) && Filled(tl, tv, ml, lens, |lens|)
    requires Patched(tl, tv, tl', tv')
    ensures Decodes(tl', tv', lens)
  {
    hide IsMaxlens, Filled, Patched, Accepted, DecodesAt;
    TableSize(tl, tv, ml, lens, tl', tv');
    forall x: nat | x < HEADSIZE
      ensures 0 < tl'[x] <= MAX_BITS && (tl'[x] > 9 ==> tv'[x] + Pow2(tl'[x] - 9) <= |tl'|)
    {
      PatchedShape(tl, tv, tl', tv', ml, lens, x);
    }
    forall q: nat | q < |tl'|
      ensures tl'[q] <= MAX_BITS && tv'[q] <= INVALIDSYMBOL
    {
      PatchedBound(tl, tv, tl', tv', ml, lens, q);
    }
    forall w: nat | w < FULL
      ensures DecodesAt(tl', tv', lens, w)
    {
      PatchedDecodes(tl, tv, tl', tv', ml, lens, w);
    }
  }

  lemma TableSize(tl: seq<nat>, tv: seq<nat>, ml: seq<nat>, lens: seq<nat>, tl': seq<nat>, tv': seq<nat>)
    requires Filled(tl, tv, ml, lens, |lens|) && Patched(tl, tv, tl', tv')
    ensures |tl'| == |tv'| >= HEADSIZE
  {
  }
}
