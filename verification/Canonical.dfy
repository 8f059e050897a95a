/**
 Canonical prefix codes, RFC 1951 section 3.2.2, as intervals.

 A code of length l stands for the interval of 2^(15 - l) consecutive 15-bit strings that start
 with it. The intervals of the symbols, taken in the order (length, symbol), tile the numbers
 from 0 to the Kraft sum without gap or overlap. Everything the decoding table and the encoder
 need (prefix-freeness, completeness, what goes wrong when the lengths are over-subscribed)
 follows from that.
 */
module Canonical {
  import opened Bits

  const MAX_BITS: nat := 15

  predicate ValidLengths(lens: seq<nat>)
  {
    forall i :: 0 <= i < |lens| ==> lens[i] <= MAX_BITS
  }

  predicate Present(lens: seq<nat>, s: nat)
  {
    s < |lens| && lens[s] > 0
  }

  /** How many of the first n symbols have length b. */
  function Count(lens: seq<nat>, b: nat, n: nat): (c: nat)
    requires n <= |lens|
    ensures c <= n
  {
    if n == 0 then 0 else Count(lens, b, n - 1) + if lens[n - 1] == b then 1 else 0
  }

  /** The first code of length b: each length starts where the previous one stopped, times two. */
  function NextCode(lens: seq<nat>, b: nat): nat
  {
    if b == 0 then 0
    else if b == 1 then 0
    else 2 * (NextCode(lens, b - 1) + Count(lens, b - 1, |lens|))
  }

  /** The code of a present symbol; it fits its length when the lengths are not over-subscribed. */
  function Code(lens: seq<nat>, s: nat): nat
    requires s < |lens|
  {
    NextCode(lens, lens[s]) + Count(lens, lens[s], s)
  }

  // ---------- intervals ----------

  /** Where the codes of length b begin, in 15-bit strings. */
  function First(lens: seq<nat>, b: nat): nat
    requires b <= MAX_BITS
  {
    Shl(NextCode(lens, b), MAX_BITS - b)
  }

  function Start(lens: seq<nat>, s: nat): nat
    requires s < |lens| && lens[s] <= MAX_BITS
  {
    Shl(Code(lens, s), MAX_BITS - lens[s])
  }

  function Size(lens: seq<nat>, s: nat): (z: nat)
    requires s < |lens| && lens[s] <= MAX_BITS
    ensures z >= 1
  {
    Pow2(MAX_BITS - lens[s])
  }

  /** The Kraft sum of the first n symbols, in units of 2^-15. */
  function KraftTo(lens: seq<nat>, n: nat): nat
    requires n <= |lens| && ValidLengths(lens)
  {
    if n == 0 then 0
    else KraftTo(lens, n - 1) + if lens[n - 1] > 0 then Size(lens, n - 1) else 0
  }

  function Kraft(lens: seq<nat>): nat
    requires ValidLengths(lens)
  {
    KraftTo(lens, |lens|)
  }

  const FULL: nat := 32768

  /** The same sum, collected by length: the first n symbols that are shorter than b. */
  function ByLength(lens: seq<nat>, n: nat, b: nat): nat
    requires n <= |lens| && b <= MAX_BITS + 1
  {
    if b <= 1 then 0 else ByLength(lens, n, b - 1) + Shl(Count(lens, b - 1, n), MAX_BITS - (b - 1))
  }

  lemma {:induction false} ByLengthNone(lens: seq<nat>, b: nat)
    requires b <= MAX_BITS + 1
    ensures ByLength(lens, 0, b) == 0
  {
    if b > 1 {
      ByLengthNone(lens, b - 1);
      ShlZero(MAX_BITS - (b - 1));
    }
  }

  lemma {:induction false} ByLengthStep(lens: seq<nat>, n: nat, b: nat)
    requires n < |lens| && b <= MAX_BITS + 1 && ValidLengths(lens)
    ensures ByLength(lens, n + 1, b)
         == ByLength(lens, n, b) + if 0 < lens[n] < b then Size(lens, n) else 0
  {
    if b > 1 {
      ByLengthStep(lens, n, b - 1);
      if lens[n] == b - 1 {
        ShlAdd(Count(lens, b - 1, n), 1, MAX_BITS - (b - 1));
        ShlOne(MAX_BITS - (b - 1));
      }
    }
  }

  lemma {:induction false} KraftIsByLength(lens: seq<nat>, n: nat)
    requires n <= |lens| && ValidLengths(lens)
    ensures KraftTo(lens, n) == ByLength(lens, n, MAX_BITS + 1)
  {
    if n == 0 {
      ByLengthNone(lens, MAX_BITS + 1);
    } else {
      KraftIsByLength(lens, n - 1);
      ByLengthStep(lens, n - 1, MAX_BITS + 1);
    }
  }

  lemma {:induction false} FirstIsByLength(lens: seq<nat>, b: nat)
    requires 1 <= b <= MAX_BITS
    ensures First(lens, b) == ByLength(lens, |lens|, b)
  {
    if b == 1 {
      ShlZero(MAX_BITS - 1);
    } else {
      FirstIsByLength(lens, b - 1);
      var k := MAX_BITS - b;
      assert k + 1 == MAX_BITS - (b - 1);
      ShlAdd(NextCode(lens, b - 1), Count(lens, b - 1, |lens|), k + 1);
      ShlShl(NextCode(lens, b - 1) + Count(lens, b - 1, |lens|), 1, k);
    }
  }

  lemma {:induction false} ByLengthMono(lens: seq<nat>, n: nat, b: nat, c: nat)
    requires n <= |lens| && b <= c <= MAX_BITS + 1
    ensures ByLength(lens, n, b) <= ByLength(lens, n, c)
  {
    if b < c {
      ByLengthMono(lens, n, b, c - 1);
    }
  }

  lemma {:induction false} CountMono(lens: seq<nat>, b: nat, m: nat, n: nat)
    requires m < n <= |lens| && lens[m] == b
    ensures Count(lens, b, m) < Count(lens, b, n)
  {
    if m < n - 1 {
      CountMono(lens, b, m, n - 1);
    }
  }

  /** The interval of a symbol lies inside the stretch of its length. */
  lemma IntervalInLength(lens: seq<nat>, s: nat, n: nat)
    requires ValidLengths(lens) && Present(lens, s) && s < n <= |lens|
    ensures var b := lens[s];
            && Start(lens, s) == ByLength(lens, |lens|, b) + Shl(Count(lens, b, s), MAX_BITS - b)
            && Start(lens, s) + Size(lens, s)
               <= ByLength(lens, |lens|, b) + Shl(Count(lens, b, n), MAX_BITS - b)
  {
    var b := lens[s];
    FirstIsByLength(lens, b);
    ShlAdd(NextCode(lens, b), Count(lens, b, s), MAX_BITS - b);
    CountMono(lens, b, s, n);
    ShlMono(Count(lens, b, s), Count(lens, b, n), MAX_BITS - b);
  }

  /** A symbol that comes later in the order (length, symbol) starts after the earlier one ends. */
  lemma IntervalsOrdered(lens: seq<nat>, s: nat, t: nat)
    requires ValidLengths(lens) && Present(lens, s) && Present(lens, t)
    requires lens[s] < lens[t] || (lens[s] == lens[t] && s < t)
    ensures Start(lens, s) + Size(lens, s) <= Start(lens, t)
  {
    if lens[s] == lens[t] {
      IntervalInLength(lens, s, t);
      IntervalInLength(lens, t, |lens|);
    } else {
      IntervalInLength(lens, s, |lens|);
      IntervalInLength(lens, t, |lens|);
      ByLengthMono(lens, |lens|, lens[s] + 1, lens[t]);
    }
  }

  /** No two intervals overlap. */
  lemma IntervalsDisjoint(lens: seq<nat>, s: nat, t: nat, v: nat)
    requires ValidLengths(lens) && Present(lens, s) && Present(lens, t)
    requires Start(lens, s) <= v < Start(lens, s) + Size(lens, s)
    requires Start(lens, t) <= v < Start(lens, t) + Size(lens, t)
    ensures s == t
  {
    if s != t {
      if lens[s] < lens[t] || (lens[s] == lens[t] && s < t) {
        IntervalsOrdered(lens, s, t);
      } else {
        IntervalsOrdered(lens, t, s);
      }
    }
  }

  /** Every interval ends inside the Kraft sum. */
  lemma IntervalInKraft(lens: seq<nat>, s: nat)
    requires ValidLengths(lens) && Present(lens, s)
    ensures Start(lens, s) + Size(lens, s) <= Kraft(lens)
  {
    IntervalInLength(lens, s, |lens|);
    KraftIsByLength(lens, |lens|);
    ByLengthMono(lens, |lens|, lens[s] + 1, MAX_BITS + 1);
  }

  /** A code of a symbol that is not past the full space fits in its length. */
  lemma {:induction false} CodeFits(c: nat, l: nat, k: nat)
    requires Shl(c, k) + Pow2(k) <= Pow2(l + k)
    ensures c < Pow2(l)
  {
    if k > 0 {
      CodeFits(c, l, k - 1);
    }
  }

  lemma CodeInRange(lens: seq<nat>, s: nat)
    requires ValidLengths(lens) && Present(lens, s) && Start(lens, s) + Size(lens, s) <= FULL
    ensures Code(lens, s) < Pow2(lens[s])
  {
    assert Pow2(15) == FULL by { FullIsPow2(); }
    CodeFits(Code(lens, s), lens[s], MAX_BITS - lens[s]);
  }

  lemma FullIsPow2()
    ensures Pow2(9) == 512 && Pow2(15) == FULL
  {
    assert Pow2(5) == 32;
    assert Pow2(9) == 512;
    assert Pow2(12) == 4096;
  }

  // ---------- every point below the Kraft sum is covered ----------

  /** The k-th symbol of length b. */
  lemma {:induction false} NthOfLength(lens: seq<nat>, b: nat, k: nat, n: nat) returns (s: nat)
    requires n <= |lens| && k < Count(lens, b, n)
    ensures s < n && lens[s] == b && Count(lens, b, s) == k
  {
    if lens[n - 1] == b && Count(lens, b, n - 1) == k {
      s := n - 1;
    } else {
      s := NthOfLength(lens, b, k, n - 1);
    }
  }

  /** Which multiple of 2^k a number below c * 2^k lies at. */
  lemma BlockOf(v: nat, c: nat, k: nat)
    requires v < Shl(c, k)
    ensures Shr(v, k) < c
    ensures Shl(Shr(v, k), k) <= v < Shl(Shr(v, k), k) + Pow2(k)
  {
    LowHigh(v, k);
    LowBound(v, k);
    if Shr(v, k) >= c {
      ShlMono(c, Shr(v, k), k);
    }
  }

  lemma {:induction false} Cover(lens: seq<nat>, v: nat, b: nat) returns (s: nat)
    requires ValidLengths(lens) && 1 <= b <= MAX_BITS + 1 && v < ByLength(lens, |lens|, b)
    ensures Present(lens, s) && Start(lens, s) <= v < Start(lens, s) + Size(lens, s)
  {
    if v < ByLength(lens, |lens|, b - 1) {
      s := Cover(lens, v, b - 1);
    } else {
      var k := MAX_BITS - (b - 1);
      var r := v - ByLength(lens, |lens|, b - 1);
      BlockOf(r, Count(lens, b - 1, |lens|), k);
      s := NthOfLength(lens, b - 1, Shr(r, k), |lens|);
      IntervalInLength(lens, s, |lens|);
    }
  }

  lemma CoverKraft(lens: seq<nat>, v: nat) returns (s: nat)
    requires ValidLengths(lens) && v < Kraft(lens)
    ensures Present(lens, s) && Start(lens, s) <= v < Start(lens, s) + Size(lens, s)
  {
    KraftIsByLength(lens, |lens|);
    s := Cover(lens, v, MAX_BITS + 1);
  }
}
