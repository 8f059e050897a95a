/**
 No prefix code within the length limit is lighter than what package-merge finds: the lengths of any such
 code stand for as many items of the last list, and those weigh no less than the lightest ones.
 */
module PackageBound {
  import opened Bits
  import opened PackageMerge
  import opened PackageLists
  import opened PackageWalk

  // ---------- a code as a choice of items ----------

  /** Of the first n leaves, those whose code has d bits or more. */
  function Count(ls: seq<nat>, d: nat, n: nat): (k: nat)
    requires n <= |ls|
    ensures k <= n
  {
    if n == 0 then 0 else Count(ls, d, n - 1) + if ls[n - 1] >= d then 1 else 0
  }

  function Weight(ws: seq<nat>, ls: seq<nat>, d: nat, n: nat): nat
    requires n <= |ls| == |ws|
  {
    if n == 0 then 0 else Weight(ws, ls, d, n - 1) + if ls[n - 1] >= d then ws[n - 1] else 0
  }

  /** The items of list j that the code makes use of: leaves with a bit there, and packages of the items
      below. */
  function Used(ls: seq<nat>, size: nat, j: nat): nat
    requires j < size
  {
    Count(ls, size - j, |ls|) + if j == 0 then 0 else Used(ls, size, j - 1) / 2
  }

  /** What the leaves of lists 0 to j weigh together. */
  function Spent(ws: seq<nat>, ls: seq<nat>, size: nat, j: nat, n: nat): nat
    requires j < size && n <= |ls| == |ws|
  {
    Weight(ws, ls, size - j, n) + if j == 0 then 0 else Spent(ws, ls, size, j - 1, n)
  }

  lemma {:induction false} CountedWeigh(ws: seq<nat>, ls: seq<nat>, d: nat, n: nat)
    requires n <= |ls| == |ws| && Ascending(ws)
    ensures Sum(ws[..Count(ls, d, n)]) <= Weight(ws, ls, d, n)
  {
    if n == 0 {
      SumNone(ws);
    } else {
      CountedWeigh(ws, ls, d, n - 1);
      SumSnoc(ws, Count(ls, d, n - 1));
    }
  }

  /** The items in use weigh no less than the lightest ones. */
  lemma {:induction false} UsedWeigh(ws: seq<nat>, ls: seq<nat>, size: nat, j: nat)
    requires j < size && |ls| == |ws| && Ascending(ws)
    ensures Used(ls, size, j) <= Capacity(|ws|, j)
    ensures Sum(List(ws, j)[..Used(ls, size, j)]) <= Spent(ws, ls, size, j, |ws|)
  {
    hide Sum, Ascending, Merged, Count, Weight, Capacity;
    CountedWeigh(ws, ls, size - j, |ws|);
    CapacityStep(|ws|, j);
    if j > 0 {
      UsedWeigh(ws, ls, size, j - 1);
      var below, p := List(ws, j - 1), Used(ls, size, j - 1) / 2;
      ListAscending(ws, j - 1);
      PairsAscending(below);
      SumPairs(below, p);
      SumMono(below, 2 * p, Used(ls, size, j - 1));
      MergedLightest(ws, Pairs(below), Count(ls, size - j, |ws|), p);
    }
  }

  // ---------- the Kraft sum ----------

  function KraftSum(ls: seq<nat>, bits: nat, n: nat): nat
    requires n <= |ls| && forall i :: 0 <= i < |ls| ==> ls[i] <= bits
  {
    if n == 0 then 0 else KraftSum(ls, bits, n - 1) + Pow2(bits - ls[n - 1])
  }

  /** The width of the leaves of lists 0 to j; an item of list i is 2^(e + i) wide. */
  function Width(ls: seq<nat>, size: nat, j: nat, e: nat, n: nat): nat
    requires j < size && n <= |ls|
  {
    Shl(Count(ls, size - j, n), e + j) + if j == 0 then 0 else Width(ls, size, j - 1, e, n)
  }

  /** Halving loses less than one item. */
  lemma {:induction false} WidthUsed(ls: seq<nat>, size: nat, j: nat, e: nat)
    requires j < size
    ensures Width(ls, size, j, e, |ls|) < Shl(Used(ls, size, j) + 1, e + j)
  {
    hide Count;
    var c := Count(ls, size - j, |ls|);
    if j == 0 {
      ShlAdd(c, 1, e);
      ShlOne(e);
    } else {
      WidthUsed(ls, size, j - 1, e);
      var u := Used(ls, size, j - 1);
      ShlMono(u + 1, 2 * (u / 2 + 1), e + j - 1);
      ShlShl(u / 2 + 1, 1, e + j - 1);
      assert Shl(u / 2 + 1, 1) == 2 * (u / 2 + 1);
      ShlAdd(c, u / 2 + 1, e + j);
    }
  }

  /** The width of a code of l bits: one item in each of its lists. */
  function LeafWidth(l: nat, size: nat, j: nat, e: nat): nat
    requires j < size
  {
    (if l >= size - j then Pow2(e + j) else 0) + if j == 0 then 0 else LeafWidth(l, size, j - 1, e)
  }

  lemma {:induction false} LeafWidthIs(l: nat, size: nat, j: nat, e: nat)
    requires j < size && l <= size
    ensures l >= size - j ==> LeafWidth(l, size, j, e) + Pow2(e + size - l) == Pow2(e + j + 1)
    ensures l < size - j ==> LeafWidth(l, size, j, e) == 0
  {
    if j > 0 {
      LeafWidthIs(l, size, j - 1, e);
    }
  }

  lemma {:induction false} WidthLeaf(ls: seq<nat>, size: nat, j: nat, e: nat, n: nat)
    requires j < size && 0 < n <= |ls|
    ensures Width(ls, size, j, e, n) == Width(ls, size, j, e, n - 1) + LeafWidth(ls[n - 1], size, j, e)
  {
    ShlAdd(Count(ls, size - j, n - 1), 1, e + j);
    ShlOne(e + j);
    if j > 0 {
      WidthLeaf(ls, size, j - 1, e, n);
    }
  }

  lemma {:induction false} WidthNone(ls: seq<nat>, size: nat, j: nat, e: nat)
    requires j < size
    ensures Width(ls, size, j, e, 0) == 0
  {
    ShlZero(e + j);
    if j > 0 {
      WidthNone(ls, size, j - 1, e);
    }
  }

  lemma {:induction false} WidthKraft(ls: seq<nat>, size: nat, bits: nat, n: nat)
    requires 0 < size <= bits && n <= |ls| && forall i :: 0 <= i < |ls| ==> ls[i] <= size
    requires forall i :: 0 <= i < n ==> ls[i] > 0
    ensures Width(ls, size, size - 1, bits - size, n) + KraftSum(ls, bits, n) == Shl(n, bits)
  {
    hide Width, Shl, Pow2, LeafWidth;
    if n == 0 {
      WidthNone(ls, size, size - 1, bits - size);
      ShlZero(bits);
    } else {
      WidthKraft(ls, size, bits, n - 1);
      WidthLeaf(ls, size, size - 1, bits - size, n);
      LeafWidthIs(ls[n - 1], size, size - 1, bits - size);
      ShlAdd(n - 1, 1, bits);
      ShlOne(bits);
    }
  }

  /** A code whose Kraft sum is at most 1 uses 2n - 2 items of the last list, or more. */
  lemma KraftUses(ls: seq<nat>, size: nat, bits: nat)
    requires 0 < size <= bits && |ls| > 0 && forall i :: 0 <= i < |ls| ==> 0 < ls[i] <= size
    requires KraftSum(ls, bits, |ls|) <= Pow2(bits)
    ensures Used(ls, size, size - 1) >= 2 * |ls| - 2
  {
    hide Used, Width, KraftSum;
    var n, u := |ls|, Used(ls, size, size - 1);
    WidthKraft(ls, size, bits, n);
    WidthUsed(ls, size, size - 1, bits - size);
    ShlAdd(n - 1, 1, bits);
    ShlOne(bits);
    ShlShl(n - 1, 1, bits - 1);
    assert Shl(n - 1, 1) == 2 * (n - 1);
    if u + 1 <= 2 * (n - 1) {
      ShlMono(u + 1, 2 * (n - 1), bits - 1);
    }
  }

  // ---------- weighted lengths ----------

  function Weighted(ws: seq<nat>, ls: seq<nat>, n: nat): nat
    requires n <= |ls| == |ws|
  {
    if n == 0 then 0 else Weighted(ws, ls, n - 1) + ws[n - 1] * ls[n - 1]
  }

  function LeafSpent(w: nat, l: nat, size: nat, j: nat): nat
    requires j < size
  {
    (if l >= size - j then w else 0) + if j == 0 then 0 else LeafSpent(w, l, size, j - 1)
  }

  lemma {:induction false} LeafSpentIs(w: nat, l: nat, size: nat, j: nat)
    requires j < size && l <= size
    ensures LeafSpent(w, l, size, j) == w * if l >= size - j then l - (size - j) + 1 else 0
  {
    if j > 0 {
      LeafSpentIs(w, l, size, j - 1);
      if l >= size - j {
        var k := l - (size - j);
        assert w * (k + 1) == w * k + w;
      }
    }
  }

  lemma {:induction false} SpentLeaf(ws: seq<nat>, ls: seq<nat>, size: nat, j: nat, n: nat)
    requires j < size && 0 < n <= |ls| == |ws|
    ensures Spent(ws, ls, size, j, n) == Spent(ws, ls, size, j, n - 1) + LeafSpent(ws[n - 1], ls[n - 1], size, j)
  {
    if j > 0 {
      SpentLeaf(ws, ls, size, j - 1, n);
    }
  }

  lemma {:induction false} SpentNone(ws: seq<nat>, ls: seq<nat>, size: nat, j: nat)
    requires j < size && |ls| == |ws|
    ensures Spent(ws, ls, size, j, 0) == 0
  {
    if j > 0 {
      SpentNone(ws, ls, size, j - 1);
    }
  }

  lemma {:induction false} SpentIsWeighted(ws: seq<nat>, ls: seq<nat>, size: nat, n: nat)
    requires 0 < size && n <= |ls| == |ws| && forall i :: 0 <= i < |ls| ==> ls[i] <= size
    ensures Spent(ws, ls, size, size - 1, n) == Weighted(ws, ls, n)
  {
    if n == 0 {
      SpentNone(ws, ls, size, size - 1);
    } else {
      SpentIsWeighted(ws, ls, size, n - 1);
      SpentLeaf(ws, ls, size, size - 1, n);
      LeafSpentIs(ws[n - 1], ls[n - 1], size, size - 1);
    }
  }

  /** The lengths that a chain gives its leaves. */
  function ChainLengths(ch: Chain, n: nat): (ls: seq<nat>)
    ensures |ls| == n
  {
    seq(n, i requires 0 <= i < n => CodeLength(ch, i))
  }

  lemma {:induction false} ChainWeighted(ws: seq<nat>, ch: Chain, n: nat)
    requires n <= |ws|
    ensures Weighted(ws, ChainLengths(ch, |ws|), n) == CostTo(ws, ch, n)
  {
    if n > 0 {
      ChainWeighted(ws, ch, n - 1);
      CostToNext(ws, ch, n - 1);
    } else {
      CostToNone(ws, ch);
    }
  }

  /** What the first n leaves weigh in the nodes of a chain. */
  function CostTo(ws: seq<nat>, ch: Chain, n: nat): nat
    requires n <= |ws|
  {
    match ch
    case Nil => 0
    case Node(_, a, t) => Sum(ws[..if a <= n then a else n]) + CostTo(ws, t, n)
  }

  lemma {:induction false} CostToNone(ws: seq<nat>, ch: Chain)
    ensures CostTo(ws, ch, 0) == 0
  {
    if ch.Node? {
      CostToNone(ws, ch.tail);
      SumNone(ws);
    }
  }

  lemma {:induction false} CostToNext(ws: seq<nat>, ch: Chain, n: nat)
    requires n < |ws|
    ensures CostTo(ws, ch, n + 1) == CostTo(ws, ch, n) + ws[n] * CodeLength(ch, n)
  {
    if ch.Node? {
      CostToNext(ws, ch.tail, n);
      SumSnoc(ws, n);
      var l := CodeLength(ch.tail, n);
      assert ws[n] * (l + 1) == ws[n] * l + ws[n];
    }
  }

  lemma {:induction false} CostToAll(ws: seq<nat>, ch: Chain)
    ensures CostTo(ws, ch, |ws|) == Cost(ws, ch)
  {
    if ch.Node? {
      CostToAll(ws, ch.tail);
    }
  }

  // ---------- optimality ----------

  /** Of all prefix codes within the limit, the final chain's is one with the smallest weighted length. */
  lemma Lightest(ws: seq<nat>, size: nat, bits: nat, ls: seq<nat>)
    requires |ws| >= 2 && Ascending(ws) && ws[0] > 0 && 0 < size <= bits && |ws| <= Pow2(size)
    requires |ls| == |ws| && (forall i :: 0 <= i < |ls| ==> 0 < ls[i] <= size) && KraftSum(ls, bits, |ls|) <= Pow2(bits)
    ensures Weighted(ws, ChainLengths(FinalChain(ws, size), |ws|), |ws|) <= Weighted(ws, ls, |ws|)
  {
    hide Cost, Sum, List, FinalChain, Ascending, KraftSum, Pow2, Spent, Used;
    var ch := FinalChain(ws, size);
    ChainWeighted(ws, ch, |ws|);
    CostToAll(ws, ch);
    FinalCost(ws, size);
    KraftUses(ls, size, bits);
    UsedWeigh(ws, ls, size, size - 1);
    SumMono(List(ws, size - 1), 2 * |ws| - 2, Used(ls, size, size - 1));
    SpentIsWeighted(ws, ls, size, |ws|);
  }
}
