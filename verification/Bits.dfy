/**
 Bit strings, and the unsigned shift, mask and or operators the codec is written with.

 Shifts are defined one bit at a time, so that every fact about them is proved by induction on
 the shift amount and stays within linear arithmetic. A number is turned into bits least
 significant first (`ToLE`) or most significant first (`ToBE`). A byte buffer is read as an
 endless bit stream whose bits past the end are zero, which is what the bit reader's buffer
 holds there.
 */
module Bits {

  type bit = b: nat | b < 2
  type byte = b: nat | b < 256

  // ---------- shifts and masks ----------

  /** x << k */
  function Shl(x: nat, k: nat): nat
  {
    if k == 0 then x else 2 * Shl(x, k - 1)
  }

  /** x >> k */
  function Shr(x: nat, k: nat): nat
  {
    if k == 0 then x else Shr(x / 2, k - 1)
  }

  /** x & ((1 << k) - 1) */
  function Low(x: nat, k: nat): nat
  {
    if k == 0 then 0 else x % 2 + 2 * Low(x / 2, k - 1)
  }

  /** 1 << k */
  function Pow2(k: nat): (p: nat)
    ensures p >= 1
  {
    if k == 0 then 1 else 2 * Pow2(k - 1)
  }

  lemma Pow2Zero()
    ensures Pow2(0) == 1
  {
  }

  /** a | b */
  function Or(a: nat, b: nat): nat
  {
    if a == 0 then b
    else if b == 0 then a
    else (if a % 2 == 1 || b % 2 == 1 then 1 else 0) + 2 * Or(a / 2, b / 2)
  }

  lemma {:induction false} ShlZero(k: nat)
    ensures Shl(0, k) == 0 && Shr(0, k) == 0 && Low(0, k) == 0
  {
    if k > 0 {
      ShlZero(k - 1);
    }
  }

  lemma {:induction false} ShlOne(k: nat)
    ensures Shl(1, k) == Pow2(k)
  {
    if k > 0 {
      ShlOne(k - 1);
    }
  }

  lemma {:induction false} ShlAdd(x: nat, y: nat, k: nat)
    ensures Shl(x + y, k) == Shl(x, k) + Shl(y, k)
  {
    if k > 0 {
      ShlAdd(x, y, k - 1);
    }
  }

  lemma {:induction false} ShlShl(x: nat, a: nat, b: nat)
    ensures Shl(Shl(x, a), b) == Shl(x, a + b)
  {
    if b > 0 {
      ShlShl(x, a, b - 1);
    }
  }

  lemma {:induction false} ShlPow2(a: nat, b: nat)
    ensures Shl(Pow2(a), b) == Pow2(a + b)
  {
    if b > 0 {
      ShlPow2(a, b - 1);
    }
  }

  lemma {:induction false} ShlMono(x: nat, y: nat, k: nat)
    requires x <= y
    ensures Shl(x, k) <= Shl(y, k)
    ensures x < y ==> Shl(x, k) + Pow2(k) <= Shl(y, k)
  {
    if k > 0 {
      ShlMono(x, y, k - 1);
    }
  }

  lemma {:induction false} ShrShr(x: nat, a: nat, b: nat)
    ensures Shr(Shr(x, a), b) == Shr(x, a + b)
  {
    if a > 0 {
      ShrShr(x / 2, a - 1, b);
    }
  }

  lemma {:induction false} Pow2Mono(a: nat, b: nat)
    requires a <= b
    ensures Pow2(a) <= Pow2(b)
  {
    if a < b {
      Pow2Mono(a, b - 1);
    }
  }

  lemma {:induction false} LowBound(x: nat, k: nat)
    ensures Low(x, k) < Pow2(k)
  {
    if k > 0 {
      LowBound(x / 2, k - 1);
    }
  }

  /** A number is its low part and its high part put back together. */
  lemma {:induction false} LowHigh(x: nat, k: nat)
    ensures x == Low(x, k) + Shl(Shr(x, k), k)
  {
    if k > 0 {
      LowHigh(x / 2, k - 1);
    }
  }

  /** The low and the high part of a number put together are found again by mask and shift. */
  lemma {:induction false} LowHighUnique(lo: nat, hi: nat, k: nat)
    requires lo < Pow2(k)
    ensures Low(lo + Shl(hi, k), k) == lo
    ensures Shr(lo + Shl(hi, k), k) == hi
  {
    if k > 0 {
      var p := Shl(hi, k - 1);
      assert (lo + 2 * p) / 2 == lo / 2 + p && (lo + 2 * p) % 2 == lo % 2;
      LowHighUnique(lo / 2, hi, k - 1);
    }
  }

  lemma LowSmall(x: nat, k: nat)
    requires x < Pow2(k)
    ensures Low(x, k) == x && Shr(x, k) == 0
  {
    ShlZero(k);
    LowHighUnique(x, 0, k);
  }

  lemma {:induction false} ShrBound(x: nat, a: nat, b: nat)
    requires x < Pow2(a + b)
    ensures Shr(x, a) < Pow2(b)
  {
    if a > 0 {
      ShrBound(x / 2, a - 1, b);
    }
  }

  /** The mask of a mask. */
  lemma {:induction false} LowLow(x: nat, a: nat, b: nat)
    requires a <= b
    ensures Low(Low(x, b), a) == Low(x, a)
  {
    if a > 0 {
      LowLow(x / 2, a - 1, b - 1);
    }
  }

  /** Low bits split in two. */
  lemma {:induction false} LowSplit(x: nat, a: nat, b: nat)
    ensures Low(x, a + b) == Low(x, a) + Shl(Low(Shr(x, a), b), a)
  {
    if a > 0 {
      LowSplit(x / 2, a - 1, b);
    }
  }

  /** Or of a number and another one shifted past its bits is their sum. */
  lemma {:induction false} OrDisjoint(a: nat, b: nat, k: nat)
    requires a < Pow2(k)
    ensures Or(a, Shl(b, k)) == a + Shl(b, k)
  {
    if a == 0 || Shl(b, k) == 0 {
    } else {
      OrDisjoint(a / 2, b, k - 1);
    }
  }

  // ---------- numbers as bit strings ----------

  /** Splitting equal strings at the same place. */
  lemma CutAt(s: seq<bit>, a: seq<bit>, b: seq<bit>, c: seq<bit>, d: seq<bit>)
    requires s == a + b && s == c + d && |a| == |c|
    ensures a == c && b == d
  {
    assert a == s[..|a|] && b == s[|a|..];
    assert c == s[..|a|] && d == s[|a|..];
  }

  /** The low n bits of v, least significant first. */
  function ToLE(v: nat, n: nat): (bs: seq<bit>)
    ensures |bs| == n
  {
    if n == 0 then [] else [v % 2] + ToLE(v / 2, n - 1)
  }

  /** The low n bits of v, most significant first. */
  function ToBE(v: nat, n: nat): (bs: seq<bit>)
    ensures |bs| == n
  {
    if n == 0 then [] else ToBE(v / 2, n - 1) + [v % 2]
  }

  function FromLE(bs: seq<bit>): nat
  {
    if |bs| == 0 then 0 else bs[0] + 2 * FromLE(bs[1..])
  }

  lemma {:induction false} FromToLE(v: nat, n: nat)
    ensures FromLE(ToLE(v, n)) == Low(v, n)
  {
    if n > 0 {
      FromToLE(v / 2, n - 1);
      assert ToLE(v, n)[1..] == ToLE(v / 2, n - 1);
    }
  }

  lemma {:induction false} FromLEBound(bs: seq<bit>)
    ensures FromLE(bs) < Pow2(|bs|)
  {
    if |bs| > 0 {
      FromLEBound(bs[1..]);
    }
  }

  lemma {:induction false} ToFromLE(bs: seq<bit>)
    ensures ToLE(FromLE(bs), |bs|) == bs
  {
    if |bs| > 0 {
      ToFromLE(bs[1..]);
    }
  }

  lemma {:induction false} ToLESplit(v: nat, a: nat, b: nat)
    ensures ToLE(v, a + b) == ToLE(v, a) + ToLE(Shr(v, a), b)
  {
    if a == 0 {
      assert ToLE(v, 0) + ToLE(v, b) == ToLE(v, b);
    } else {
      ToLESplit(v / 2, a - 1, b);
      var lo, hi := ToLE(v / 2, a - 1), ToLE(Shr(v, a), b);
      assert [v % 2] + (lo + hi) == ([v % 2] + lo) + hi;
    }
  }

  /** Only the low n bits matter. */
  lemma {:induction false} ToLELow(v: nat, n: nat)
    ensures ToLE(Low(v, n), n) == ToLE(v, n)
  {
    if n > 0 {
      var lo := Low(v / 2, n - 1);
      assert (v % 2 + 2 * lo) % 2 == v % 2 && (v % 2 + 2 * lo) / 2 == lo;
      ToLELow(v / 2, n - 1);
    }
  }

  /** The bits of a number put together from a low and a high part. */
  lemma ToLEJoin(lo: nat, hi: nat, a: nat, b: nat)
    requires lo < Pow2(a)
    ensures ToLE(lo + Shl(hi, a), a + b) == ToLE(lo, a) + ToLE(hi, b)
  {
    var v := lo + Shl(hi, a);
    ToLESplit(v, a, b);
    LowHighUnique(lo, hi, a);
    ToLELow(v, a);
  }

  lemma {:induction false} ToLEAt(v: nat, n: nat, i: nat)
    requires i < n
    ensures ToLE(v, n)[i] == Shr(v, i) % 2
  {
    if i > 0 {
      ToLEAt(v / 2, n - 1, i - 1);
    }
  }

  lemma {:induction false} ToBEAt(v: nat, n: nat, i: nat)
    requires i < n
    ensures ToBE(v, n)[i] == Shr(v, n - 1 - i) % 2
  {
    if i < n - 1 {
      ToBEAt(v / 2, n - 1, i);
    }
  }

  lemma {:induction false} ToLEZero(n: nat)
    ensures forall i :: 0 <= i < n ==> ToLE(0, n)[i] == 0
  {
    if n > 0 {
      ToLEZero(n - 1);
    }
  }

  lemma {:induction false} FromLEConcat(xs: seq<bit>, ys: seq<bit>)
    ensures FromLE(xs + ys) == FromLE(xs) + Shl(FromLE(ys), |xs|)
  {
    if |xs| == 0 {
      assert xs + ys == ys;
    } else {
      FromLEConcat(xs[1..], ys);
      assert (xs + ys)[1..] == xs[1..] + ys;
    }
  }

  // ---------- byte buffers as bit streams ----------

  /** Bit i of the stream; zero past the end. */
  function BitAt(data: seq<byte>, i: nat): bit
  {
    if i / 8 < |data| then Shr(data[i / 8], i % 8) % 2 else 0
  }

  /** The n bits of the stream that start at bit position pos. */
  function Window(data: seq<byte>, pos: nat, n: nat): (bs: seq<bit>)
    ensures |bs| == n
    ensures forall i :: 0 <= i < n ==> bs[i] == BitAt(data, pos + i)
  {
    seq<bit>(n, i requires 0 <= i < n => BitAt(data, pos + i))
  }

  function ByteAt(data: seq<byte>, i: nat): byte
  {
    if i < |data| then data[i] else 0
  }

  /** Eight aligned bits are one byte. */
  lemma WindowByte(data: seq<byte>, i: nat)
    ensures Window(data, 8 * i, 8) == ToLE(ByteAt(data, i), 8)
  {
    ToLEZero(8);
    forall k | 0 <= k < 8
      ensures Window(data, 8 * i, 8)[k] == ToLE(ByteAt(data, i), 8)[k]
    {
      ToLEAt(ByteAt(data, i), 8, k);
      assert (8 * i + k) / 8 == i && (8 * i + k) % 8 == k;
      assert Window(data, 8 * i, 8)[k] == BitAt(data, 8 * i + k);
    }
  }

  lemma WindowSplit(data: seq<byte>, pos: nat, a: nat, b: nat)
    ensures Window(data, pos, a + b) == Window(data, pos, a) + Window(data, pos + a, b)
  {
  }
}
