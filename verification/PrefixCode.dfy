/**
 What a canonical code means for a stream that is read least significant bit first: which symbol
 the next 15 bits (as the number w) start with, and when that is decided for every w.
 */
module PrefixCodes {
  import opened Bits
  import opened Canonical

  function FromBE(bs: seq<bit>): nat
  {
    if |bs| == 0 then 0 else 2 * FromBE(bs[..|bs| - 1]) + bs[|bs| - 1]
  }

  /** The low n bits of v in reverse order, as a number. */
  function Rev(v: nat, n: nat): nat
  {
    FromLE(ToBE(v, n))
  }

  lemma {:induction false} FromToBE(v: nat, n: nat)
    requires v < Pow2(n)
    ensures FromBE(ToBE(v, n)) == v
  {
    if n > 0 {
      FromToBE(v / 2, n - 1);
      assert ToBE(v, n)[..n - 1] == ToBE(v / 2, n - 1);
    }
  }

  lemma {:induction false} ToFromBE(bs: seq<bit>)
    ensures ToBE(FromBE(bs), |bs|) == bs && FromBE(bs) < Pow2(|bs|)
  {
    if |bs| > 0 {
      ToFromBE(bs[..|bs| - 1]);
    }
  }

  lemma {:induction false} ToBEPrefix(v: nat, a: nat, b: nat)
    ensures ToBE(v, a + b)[..a] == ToBE(Shr(v, b), a)
  {
    if b > 0 {
      ToBEPrefix(v / 2, a, b - 1);
    }
  }

  lemma ToLEPrefix(v: nat, a: nat, b: nat)
    ensures ToLE(v, a + b)[..a] == ToLE(v, a)
  {
    ToLESplit(v, a, b);
  }

  lemma {:induction false} ToBELow(v: nat, n: nat)
    ensures ToBE(Low(v, n), n) == ToBE(v, n)
  {
    if n > 0 {
      ToBELow(v / 2, n - 1);
    }
  }

  /** Equal numbers have equal bits, and conversely. */
  lemma FromLEInjective(xs: seq<bit>, ys: seq<bit>)
    requires |xs| == |ys|
    ensures FromLE(xs) == FromLE(ys) <==> xs == ys
  {
    ToFromLE(xs);
    ToFromLE(ys);
  }

  /** The next stream bits are the code of symbol s. */
  predicate Matches(lens: seq<nat>, s: nat, w: nat)
  {
    Present(lens, s) && Low(w, lens[s]) == Rev(Code(lens, s), lens[s])
  }

  /** The 15 stream bits of w, read as a code would be: first bit most significant. */
  function Value(w: nat): (v: nat)
    ensures v < Pow2(MAX_BITS) && ToBE(v, MAX_BITS) == ToLE(w, MAX_BITS)
  {
    ToFromBE(ToLE(w, MAX_BITS));
    FromBE(ToLE(w, MAX_BITS))
  }

  lemma StringOfValue(v: nat) returns (w: nat)
    requires v < Pow2(MAX_BITS)
    ensures Value(w) == v && w < Pow2(MAX_BITS)
  {
    w := FromLE(ToBE(v, MAX_BITS));
    FromLEBound(ToBE(v, MAX_BITS));
    ToFromLE(ToBE(v, MAX_BITS));
    FromToBE(v, MAX_BITS);
  }

  lemma MatchesIsPrefix(w: nat, c: nat, l: nat, k: nat)
    requires c < Pow2(l) && l + k == MAX_BITS
    ensures Low(w, l) == Rev(c, l) <==> Shr(Value(w), k) == c
  {
    var v := Value(w);
    FromToLE(w, l);
    ToLEPrefix(w, l, k);
    ToBEPrefix(v, l, k);
    assert ToLE(w, l) == ToBE(Shr(v, k), l);
    FromLEInjective(ToLE(w, l), ToBE(c, l));
    ShrBound(v, k, l);
    FromToBE(Shr(v, k), l);
    FromToBE(c, l);
  }

  lemma ShrIsInterval(v: nat, c: nat, k: nat)
    ensures Shr(v, k) == c <==> Shl(c, k) <= v < Shl(c, k) + Pow2(k)
  {
    LowHigh(v, k);
    LowBound(v, k);
    if Shr(v, k) < c {
      ShlMono(Shr(v, k), c, k);
    } else if c < Shr(v, k) {
      ShlMono(c, Shr(v, k), k);
    }
  }

  /** A symbol is next in the stream exactly when the stream's value lies in its interval. */
  lemma MatchesIsInterval(lens: seq<nat>, s: nat, w: nat)
    requires ValidLengths(lens) && Present(lens, s) && Start(lens, s) + Size(lens, s) <= FULL
    ensures Matches(lens, s, w) <==> Start(lens, s) <= Value(w) < Start(lens, s) + Size(lens, s)
  {
    CodeInRange(lens, s);
    MatchesIsPrefix(w, Code(lens, s), lens[s], MAX_BITS - lens[s]);
    ShrIsInterval(Value(w), Code(lens, s), MAX_BITS - lens[s]);
  }

  /** Prefix-freeness: without over-subscription, at most one symbol is next. */
  lemma UniqueMatch(lens: seq<nat>, s: nat, t: nat, w: nat)
    requires ValidLengths(lens) && Kraft(lens) <= FULL
    requires Matches(lens, s, w) && Matches(lens, t, w)
    ensures s == t
  {
    IntervalInKraft(lens, s);
    IntervalInKraft(lens, t);
    MatchesIsInterval(lens, s, w);
    MatchesIsInterval(lens, t, w);
    IntervalsDisjoint(lens, s, t, Value(w));
  }

  /** Completeness: with Kraft sum 1, some symbol is next. */
  lemma SomeMatch(lens: seq<nat>, w: nat) returns (s: nat)
    requires ValidLengths(lens) && Kraft(lens) == FULL
    ensures Matches(lens, s, w)
  {
    FullIsPow2();
    s := CoverKraft(lens, Value(w));
    IntervalInKraft(lens, s);
    MatchesIsInterval(lens, s, w);
  }

  /** With a smaller Kraft sum, some bit string starts with no code. */
  lemma NoMatch(lens: seq<nat>) returns (w: nat)
    requires ValidLengths(lens) && Kraft(lens) < FULL
    ensures w < FULL && forall s: nat :: Present(lens, s) ==> !Matches(lens, s, w)
  {
    FullIsPow2();
    w := StringOfValue(Kraft(lens));
    forall s: nat | Present(lens, s)
      ensures !Matches(lens, s, w)
    {
      IntervalInKraft(lens, s);
      MatchesIsInterval(lens, s, w);
    }
  }

  // ---------- over-subscribed lengths ----------

  lemma {:induction false} RevZero(n: nat)
    ensures Rev(0, n) == 0 && Low(0, n) == 0
  {
    ShlZero(n);
    if n > 0 {
      RevZero(n - 1);
      FromLEConcat(ToBE(0, n - 1), [0]);
      ShlZero(n - 1);
      assert FromLE([0]) == 0;
    }
  }

  /** A code whose low bits are zero matches the all-zero string. */
  lemma ZeroCodeMatches(lens: seq<nat>, s: nat)
    requires Present(lens, s) && Low(Code(lens, s), lens[s]) == 0
    ensures Matches(lens, s, 0)
  {
    ToBELow(Code(lens, s), lens[s]);
    RevZero(lens[s]);
  }

  /** The only block of size 2^k that contains the boundary c * 2^k starts there. */
  lemma BoundaryBlock(code: nat, c: nat, k: nat)
    requires Shl(code, k) <= Shl(c, k) < Shl(code, k) + Pow2(k)
    ensures code == c
  {
    if code < c {
      ShlMono(code, c, k);
    } else if c < code {
      ShlMono(c, code, k);
    }
  }

  lemma LowOfPow2(l: nat)
    ensures Low(Pow2(l), l) == 0
  {
    ShlOne(l);
    LowHighUnique(0, 1, l);
  }

  /** The symbol at a boundary (0 or the full space) has a code whose low bits are zero. */
  lemma BoundarySymbol(lens: seq<nat>, v: nat) returns (s: nat)
    requires ValidLengths(lens) && v < Kraft(lens) && (v == 0 || v == FULL)
    ensures Matches(lens, s, 0) && Start(lens, s) == v && lens[s] <= MAX_BITS
  {
    s := CoverKraft(lens, v);
    var l, k := lens[s], MAX_BITS - lens[s];
    FullIsPow2();
    ShlPow2(l, k);
    ShlZero(k);
    BoundaryBlock(Code(lens, s), if v == 0 then 0 else Pow2(l), k);
    LowOfPow2(l);
    ShlZero(l);
    ZeroCodeMatches(lens, s);
  }

  lemma {:induction false} KraftOfLong(lens: seq<nat>, n: nat)
    requires n <= |lens| && ValidLengths(lens)
    requires forall s: nat :: Present(lens, s) ==> lens[s] > 9
    ensures KraftTo(lens, n) <= 32 * n
  {
    if n > 0 {
      KraftOfLong(lens, n - 1);
      if lens[n - 1] > 0 {
        assert Present(lens, n - 1);
        Pow2Mono(MAX_BITS - lens[n - 1], 5);
        assert Pow2(5) == 32;
      }
    }
  }

  /** Over-subscribed lengths of at most 512 symbols: the first code wraps around onto a later one,
      and the first code is at most 9 bits long. */
  lemma Oversubscribed(lens: seq<nat>) returns (s: nat, t: nat)
    requires ValidLengths(lens) && |lens| <= 512 && Kraft(lens) > FULL
    ensures s != t && Matches(lens, s, 0) && Matches(lens, t, 0)
    ensures lens[s] <= 9
  {
    s := BoundarySymbol(lens, 0);
    t := BoundarySymbol(lens, FULL);
    if lens[s] > 9 {
      forall u: nat | Present(lens, u)
        ensures lens[u] > 9
      {
        if lens[u] < lens[s] {
          IntervalsOrdered(lens, u, s);
        }
      }
      KraftOfLong(lens, |lens|);
    }
  }
}
