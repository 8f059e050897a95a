/**
 The full lists of package-merge: list 0 is the leaves, list c merges the leaves with the pairs of list
 c - 1. Boundary package-merge never builds them; it is proved to walk along them, and so to find
 the lightest 2n - 2 items of the last one.
 */
module PackageLists {
  import opened PackageMerge

  function Sum(s: seq<nat>): nat
  {
    if |s| == 0 then 0 else Sum(s[..|s| - 1]) + s[|s| - 1]
  }

  /** Items 2i and 2i + 1 together, for every i. */
  function Pairs(s: seq<nat>): (r: seq<nat>)
    ensures |r| == |s| / 2 && forall i :: 0 <= i < |r| ==> r[i] == s[2 * i] + s[2 * i + 1]
  {
    seq(|s| / 2, i requires 0 <= i < |s| / 2 => s[2 * i] + s[2 * i + 1])
  }

  /** The leaves and the packages in order; a package comes before a leaf of the same weight. */
  function Merged(x: seq<nat>, y: seq<nat>): (r: seq<nat>)
    ensures |r| == |x| + |y|
  {
    if |x| == 0 then y
    else if |y| > 0 && y[0] <= x[0] then [y[0]] + Merged(x, y[1..])
    else [x[0]] + Merged(x[1..], y)
  }

  function List(ws: seq<nat>, c: nat): (r: seq<nat>)
    ensures |r| == Capacity(|ws|, c)
  {
    if c == 0 then ws else Merged(ws, Pairs(List(ws, c - 1)))
  }

  // ---------- sums ----------

  lemma SumSnoc(s: seq<nat>, k: nat)
    requires k < |s|
    ensures Sum(s[..k + 1]) == Sum(s[..k]) + s[k]
  {
    assert s[..k + 1][..k] == s[..k];
  }

  lemma {:induction false} SumCons(x: nat, s: seq<nat>)
    ensures Sum([x] + s) == x + Sum(s)
  {
    if |s| == 0 {
      assert [x] + s == [x];
    } else {
      SumCons(x, s[..|s| - 1]);
      assert ([x] + s)[..|s|] == [x] + s[..|s| - 1];
    }
  }

  lemma {:induction false} SumMono(s: seq<nat>, a: nat, b: nat)
    requires a <= b <= |s|
    ensures Sum(s[..a]) <= Sum(s[..b])
  {
    if a < b {
      SumMono(s, a, b - 1);
      SumSnoc(s, b - 1);
    }
  }

  /** The first p pairs weigh what the first 2p items weigh. */
  lemma {:induction false} SumPairs(s: seq<nat>, p: nat)
    requires 2 * p <= |s|
    ensures Sum(Pairs(s)[..p]) == Sum(s[..2 * p])
  {
    if p > 0 {
      SumPairs(s, p - 1);
      SumSnoc(s, 2 * p - 2);
      SumSnoc(s, 2 * p - 1);
      SumSnoc(Pairs(s), p - 1);
    }
  }

  // ---------- the order ----------

  lemma {:induction false} MergedAscending(x: seq<nat>, y: seq<nat>)
    requires Ascending(x) && Ascending(y)
    ensures Ascending(Merged(x, y))
    ensures |x| + |y| > 0 ==> Merged(x, y)[0] == if |x| > 0 && (|y| == 0 || x[0] < y[0]) then x[0] else y[0]
  {
    if |x| > 0 {
      if |y| > 0 && y[0] <= x[0] {
        MergedAscending(x, y[1..]);
        AscendingCons(y[0], Merged(x, y[1..]));
      } else {
        MergedAscending(x[1..], y);
        AscendingCons(x[0], Merged(x[1..], y));
      }
    }
  }

  lemma AscendingCons(e: nat, s: seq<nat>)
    requires Ascending(s) && (|s| > 0 ==> e <= s[0])
    ensures Ascending([e] + s)
  {
  }

  lemma PairsAscending(s: seq<nat>)
    requires Ascending(s)
    ensures Ascending(Pairs(s))
  {
  }

  lemma {:induction false} ListAscending(ws: seq<nat>, c: nat)
    requires Ascending(ws)
    ensures Ascending(List(ws, c))
  {
    if c > 0 {
      ListAscending(ws, c - 1);
      PairsAscending(List(ws, c - 1));
      MergedAscending(ws, Pairs(List(ws, c - 1)));
    }
  }

  lemma SumHead(e: nat, s: seq<nat>, m: seq<nat>, k: nat)
    requires m == [e] + s && 0 < k <= |m|
    ensures Sum(m[..k]) == e + Sum(s[..k - 1])
  {
    assert m[..k] == [e] + s[..k - 1];
    SumCons(e, s[..k - 1]);
  }

  lemma HeadAndTail(s: seq<nat>)
    requires |s| > 0
    ensures s == [s[0]] + s[1..]
    ensures Ascending(s) ==> Ascending(s[1..]) && forall i :: 0 <= i < |s| ==> s[0] <= s[i]
  {
  }

  lemma MergedHead(x: seq<nat>, y: seq<nat>)
    ensures |x| > 0 && |y| > 0 && y[0] <= x[0] ==> Merged(x, y) == [y[0]] + Merged(x, y[1..])
    ensures |x| > 0 && !(|y| > 0 && y[0] <= x[0]) ==> Merged(x, y) == [x[0]] + Merged(x[1..], y)
    ensures |x| == 0 ==> Merged(x, y) == y
  {
  }

  lemma SumNone(s: seq<nat>)
    ensures Sum(s[..0]) == 0
  {
  }

  /** The first items of a merge are the lightest: any a of one and b of the other weigh no less. */
  lemma {:induction false} MergedLightest(x: seq<nat>, y: seq<nat>, a: nat, b: nat)
    requires Ascending(x) && Ascending(y) && a <= |x| && b <= |y|
    ensures Sum(Merged(x, y)[..a + b]) <= Sum(x[..a]) + Sum(y[..b])
  {
    hide Sum, Merged, Ascending;
    MergedHead(x, y);
    if |x| == 0 || a + b == 0 {
      SumNone(x);
      SumNone(Merged(x, y));
    } else if |y| > 0 && y[0] <= x[0] {
      HeadAndTail(y);
      HeadAndTail(x);
      SumHead(y[0], Merged(x, y[1..]), Merged(x, y), a + b);
      if b > 0 {
        MergedLightest(x, y[1..], a, b - 1);
        SumHead(y[0], y[1..], y, b);
      } else {
        MergedLightest(x, y[1..], a - 1, 0);
        SumNone(y[1..]);
        SumSnoc(x, a - 1);
      }
    } else {
      HeadAndTail(x);
      SumHead(x[0], Merged(x[1..], y), Merged(x, y), a + b);
      if a > 0 {
        MergedLightest(x[1..], y, a - 1, b);
        SumHead(x[0], x[1..], x, a);
      } else {
        HeadAndTail(y);
        MergedLightest(x[1..], y, 0, b - 1);
        SumNone(x[1..]);
        SumSnoc(y, b - 1);
      }
    }
  }

  // ---------- walking along a merge ----------

  /** How many of the first k items of a merge are leaves. */
  function LeavesIn(x: seq<nat>, y: seq<nat>, k: nat): (a: nat)
    requires k <= |x| + |y|
    ensures a <= k && a <= |x| && k - a <= |y|
  {
    if k == 0 || |x| == 0 then 0
    else if |y| > 0 && y[0] <= x[0] then LeavesIn(x, y[1..], k - 1)
    else 1 + LeavesIn(x[1..], y, k - 1)
  }

  /** The next item is a package if there is one that is not heavier than the next leaf. */
  predicate NextIsPackage(x: seq<nat>, y: seq<nat>, a: nat, p: nat)
    requires a <= |x| && p <= |y|
  {
    p < |y| && (a == |x| || y[p] <= x[a])
  }

  lemma PackageStep(x: seq<nat>, y: seq<nat>, k: nat)
    requires |x| > 0 && |y| > 0 && y[0] <= x[0] && 0 < k < |x| + |y|
    ensures Merged(x, y)[k] == Merged(x, y[1..])[k - 1]
    ensures LeavesIn(x, y, k) == LeavesIn(x, y[1..], k - 1) && LeavesIn(x, y, k + 1) == LeavesIn(x, y[1..], k)
  {
  }

  lemma LeafStep(x: seq<nat>, y: seq<nat>, k: nat)
    requires |x| > 0 && !(|y| > 0 && y[0] <= x[0]) && 0 < k < |x| + |y|
    ensures Merged(x, y)[k] == Merged(x[1..], y)[k - 1]
    ensures LeavesIn(x, y, k) == 1 + LeavesIn(x[1..], y, k - 1) && LeavesIn(x, y, k + 1) == 1 + LeavesIn(x[1..], y, k)
  {
  }

  lemma FirstItem(x: seq<nat>, y: seq<nat>)
    requires |x| + |y| > 0
    ensures LeavesIn(x, y, 0) == 0
    ensures Merged(x, y)[0] == (if NextIsPackage(x, y, 0, 0) then y[0] else x[0])
    ensures LeavesIn(x, y, 1) == if NextIsPackage(x, y, 0, 0) then 0 else 1
  {
  }

  lemma NoLeaves(y: seq<nat>, k: nat)
    requires k <= |y|
    ensures LeavesIn([], y, k) == 0 && Merged([], y) == y
  {
  }

  lemma {:induction false} NextItem(x: seq<nat>, y: seq<nat>, k: nat)
    requires k < |x| + |y|
    ensures var a := LeavesIn(x, y, k); var p := k - a;
            && (NextIsPackage(x, y, a, p) || a < |x|)
            && Merged(x, y)[k] == (if NextIsPackage(x, y, a, p) then y[p] else x[a])
            && LeavesIn(x, y, k + 1) == if NextIsPackage(x, y, a, p) then a else a + 1
  {
    hide Merged, LeavesIn;
    if |x| == 0 {
      assert x == [];
      NoLeaves(y, k);
      NoLeaves(y, k + 1);
    } else if k == 0 {
      FirstItem(x, y);
    } else if |y| > 0 && y[0] <= x[0] {
      PackageStep(x, y, k);
      NextItem(x, y[1..], k - 1);
      var p := k - 1 - LeavesIn(x, y[1..], k - 1);
      assert p < |y[1..]| ==> y[1..][p] == y[p + 1];
    } else {
      LeafStep(x, y, k);
      NextItem(x[1..], y, k - 1);
      var a := LeavesIn(x[1..], y, k - 1);
      assert a < |x[1..]| ==> x[1..][a] == x[a + 1];
    }
  }

  /** The first k items are the first leaves and the first packages. */
  lemma {:induction false} FirstItems(x: seq<nat>, y: seq<nat>, k: nat)
    requires k <= |x| + |y|
    ensures var a := LeavesIn(x, y, k); Sum(Merged(x, y)[..k]) == Sum(x[..a]) + Sum(y[..k - a])
  {
    hide Merged, Sum;
    if k == 0 {
      SumNone(x);
      SumNone(y);
      SumNone(Merged(x, y));
    } else {
      hide LeavesIn;
      FirstItems(x, y, k - 1);
      NextItem(x, y, k - 1);
      SumSnoc(Merged(x, y), k - 1);
      var a := LeavesIn(x, y, k - 1);
      var p := k - 1 - a;
      if NextIsPackage(x, y, a, p) { SumSnoc(y, p); } else { SumSnoc(x, a); }
    }
  }
}
