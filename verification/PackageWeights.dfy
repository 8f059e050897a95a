/**
 How heavy the packages of boundary package-merge get. The source keeps weights in 32-bit numbers, and a
 package may weigh more than all symbols together: the look-ahead of a list may also run past the items
 that the list has. A list that can run past them lies so low that its packages are light all the same.
 */
module PackageWeights {
  import opened Bits
  import opened PackageMerge
  import opened PackageLists
  import opened PackageWalk

  /** Every weight that the comparisons of a step add up is below the limit. */
  ghost predicate SumsBelow(st: Lists, ws: seq<nat>, c: nat, last: bool, limit: nat)
    requires Shape(st) && c < |st.c0|
    decreases c
  {
    c > 0 ==>
      && PackageWeight(st, c) < limit
      && (!TakesLeaf(st, ws, c) && !last ==>
            var st1 := Advance(st, c, PackageItem(st, c));
            SumsBelow(st1, ws, c - 1, false, limit) && SumsBelow(Step(st1, ws, c - 1, false), ws, c - 1, false, limit))
  }

  /** What a package for list c weighs at most. */
  function SumLimit(ws: seq<nat>, c: nat): nat
    requires |ws| > 0
  {
    if Pow2(c) < |ws| then Shl(ws[|ws| - 1], c) else 2 * (c * Sum(ws))
  }

  // ---------- items of the full lists ----------

  lemma {:induction false} ItemInSum(s: seq<nat>, i: nat)
    requires i < |s|
    ensures s[i] <= Sum(s)
  {
    if i < |s| - 1 {
      ItemInSum(s[..|s| - 1], i);
    }
  }

  lemma MergedSum(x: seq<nat>, y: seq<nat>)
    ensures Sum(Merged(x, y)) == Sum(x) + Sum(y)
  {
    hide Sum, Merged, LeavesIn;
    var k := |x| + |y|;
    FirstItems(x, y, k);
    assert Merged(x, y)[..k] == Merged(x, y) && x[..|x|] == x && y[..|y|] == y;
  }

  /** A list weighs no more than the leaves and the list below it. */
  lemma {:induction false} ListSum(ws: seq<nat>, c: nat)
    ensures Sum(List(ws, c)) <= (c + 1) * Sum(ws)
  {
    hide Sum, Merged;
    if c > 0 {
      ListSum(ws, c - 1);
      var below := List(ws, c - 1);
      MergedSum(ws, Pairs(below));
      SumPairs(below, |below| / 2);
      SumMono(below, 2 * (|below| / 2), |below|);
      assert below[..|below|] == below && Pairs(below)[..|below| / 2] == Pairs(below);
      assert (c + 1) * Sum(ws) == c * Sum(ws) + Sum(ws);
    }
  }

  // ---------- how far the look-ahead goes ----------

  /** A chain of k items counts more than k / 2 leaves. */
  lemma LeavesOfItems(ch: Chain, k: nat)
    requires ch.Node? && Items(ch, k) && ch.index > 0
    ensures k < 2 * ch.index
  {
    hide Items, Depth, KraftOfChain;
    var a, bits := ch.index, Depth(ch) + 1;
    KraftOfItems(ch, k, a, bits);
    KraftAtLeast(ch, a, bits);
    ShlShl(a, 1, bits - 1);
    assert Shl(a, 1) == 2 * a;
    if k >= 2 * a {
      ShlMono(2 * a, k, bits - 1);
    }
  }

  /** A list that was asked for at most 2n - 2 items has taken at most n - 2 packages. */
  lemma FewPackages(st: Lists, ws: seq<nat>, c: nat)
    requires Shape(st) && c < |st.c0| && Level(st, ws, c) && st.asked[c] <= 2 * |ws| - 2
    ensures st.asked[c] - st.c1[c].index <= |ws| - 2
  {
    hide Items, Depth, Capacity;
    if st.asked[c] <= Capacity(|ws|, c) {
      LeavesOfItems(st.c1[c], st.asked[c]);
    }
  }

  // ---------- weights ----------

  ghost predicate Modest(st: Lists, ws: seq<nat>, c: nat)
    requires Shape(st) && c < |st.c0| && |ws| > 0
  {
    && st.asked[c] <= 2 * |ws| - 2
    && st.c0[c].weight <= Shl(ws[|ws| - 1], c) && st.c1[c].weight <= Shl(ws[|ws| - 1], c)
  }

  ghost predicate AllModest(st: Lists, ws: seq<nat>, m: nat)
    requires Shape(st) && m < |st.c0| && |ws| > 0
  {
    forall c :: 0 <= c <= m ==> Modest(st, ws, c)
  }

  lemma {:induction false} HeaviestLeaf(ws: seq<nat>, i: nat, c: nat)
    requires Ascending(ws) && i < |ws|
    ensures ws[i] <= Shl(ws[|ws| - 1], c)
  {
    if c == 0 {
      LeafOrder(ws, i, |ws| - 1);
    } else {
      HeaviestLeaf(ws, i, c - 1);
    }
  }

  lemma ModestPackage(st: Lists, ws: seq<nat>, c: nat)
    requires Shape(st) && 1 <= c < |st.c0| && |ws| > 0 && Modest(st, ws, c - 1)
    ensures PackageWeight(st, c) <= Shl(ws[|ws| - 1], c)
  {
    ShlShl(ws[|ws| - 1], c - 1, 1);
    assert Shl(Shl(ws[|ws| - 1], c - 1), 1) == 2 * Shl(ws[|ws| - 1], c - 1);
  }

  /** A package is made of items that exist, or is that of a low list. */
  lemma PackageLimit(st: Lists, ws: seq<nat>, c: nat)
    requires Shape(st) && 1 <= c < |st.c0| && |ws| > 0
    requires Modest(st, ws, c - 1) && Level(st, ws, c - 1) && Walks(st, ws, c - 1)
    ensures PackageWeight(st, c) <= SumLimit(ws, c)
  {
    hide Sum, List, Shl, Items, Depth, Capacity, Cost, LeavesOfList;
    ModestPackage(st, ws, c);
    if |ws| <= Pow2(c) {
      CapacityEnough(|ws|, c - 1, 1);
      assert Pow2(1) == 2;
      var k := st.asked[c - 1];
      ItemInSum(List(ws, c - 1), k - 1);
      ItemInSum(List(ws, c - 1), k - 2);
      ListSum(ws, c - 1);
    }
  }

  lemma ModestAdvance(st: Lists, ws: seq<nat>, c: nat, item: Chain)
    requires Shape(st) && c < |st.c0| && |ws| > 0 && item.Node?
    requires Modest(st, ws, c) && st.asked[c] + 1 <= 2 * |ws| - 2 && item.weight <= Shl(ws[|ws| - 1], c)
    ensures var st' := Advance(st, c, item); Shape(st') && Modest(st', ws, c)
  {
    hide Shl;
  }

  lemma ModestAsked(st: Lists, ws: seq<nat>)
    requires Shape(st) && 0 < |st.c0| && |ws| > 0 && Modest(st, ws, 0) && st.asked[0] + 1 <= 2 * |ws| - 2
    ensures var st' := st.(asked := st.asked[0 := st.asked[0] + 1]); Shape(st') && Modest(st', ws, 0)
  {
  }

  lemma ModestKept(st: Lists, st': Lists, ws: seq<nat>, c: nat)
    requires Shape(st) && Shape(st') && c < |st.c0| == |st'.c0| && |ws| > 0 && Modest(st, ws, c)
    requires st'.c0[c] == st.c0[c] && st'.c1[c] == st.c1[c] && st'.asked[c] == st.asked[c]
    ensures Modest(st', ws, c)
  {
    hide Shl;
  }

  lemma BelowModest(st: Lists, st': Lists, ws: seq<nat>, c: nat)
    requires Shape(st) && Shape(st') && 1 <= c < |st.c0| && |ws| > 0 && SameBelow(st, st', c) && AllModest(st, ws, c)
    ensures AllModest(st', ws, c - 1)
  {
    hide Modest;
    forall i | 0 <= i <= c - 1
      ensures Modest(st', ws, i)
    {
      ModestKept(st, st', ws, i);
    }
  }

  // ---------- every step ----------

  ghost predicate Steady(st: Lists, ws: seq<nat>, m: nat)
  {
    Invariant(st, ws, m) && AllWalk(st, ws, m) && |ws| > 0 && AllModest(st, ws, m)
  }

  lemma SteadyParts(st: Lists, ws: seq<nat>, c: nat)
    requires Steady(st, ws, c)
    ensures Shape(st) && c < |st.c0| && |ws| > 0 && Ascending(ws) && Modest(st, ws, c) && Level(st, ws, c)
    ensures c > 0 ==> Level(st, ws, c - 1) && Link(st, c) && Walks(st, ws, c - 1) && Modest(st, ws, c - 1)
  {
    hide Level, Link, Walks, Modest;
  }

  lemma ModestUp(st: Lists, st': Lists, ws: seq<nat>, c: nat)
    requires Shape(st) && Shape(st') && c < |st.c0| == |st'.c0| && |ws| > 0 && Modest(st', ws, c)
    requires c > 0 ==> AllModest(st', ws, c - 1)
    ensures AllModest(st', ws, c)
  {
    hide Modest;
  }

  lemma BottomFits(st: Lists, ws: seq<nat>)
    requires Steady(st, ws, 0) && st.asked[0] + 1 <= 2 * |ws| - 2
    ensures Modest(Step(st, ws, 0, false), ws, 0)
  {
    hide Items, Depth, Walks, Link, Modest;
    SteadyParts(st, ws, 0);
    if st.c1[0].index < |ws| {
      HeaviestLeaf(ws, st.c1[0].index, 0);
      ModestAdvance(st, ws, 0, LeafItem(st, ws, 0));
    } else {
      ModestAsked(st, ws);
    }
  }

  /** List c - 1 may look two items further when list c takes a package. */
  lemma RoomBelow(st: Lists, ws: seq<nat>, c: nat)
    requires c > 0 && Steady(st, ws, c) && st.asked[c] + 1 <= 2 * |ws| - 2 && !TakesLeaf(st, ws, c)
    ensures st.asked[c - 1] + 2 <= 2 * |ws| - 2
  {
    hide Level, Walks, Modest;
    SteadyParts(st, ws, c);
    PackageLevel(st, ws, c);
    FewPackages(Advance(st, c, PackageItem(st, c)), ws, c);
  }

  /** After a package was taken, the lists below are as before. */
  lemma SteadyBelow(st: Lists, ws: seq<nat>, c: nat)
    requires c > 0 && Steady(st, ws, c) && !TakesLeaf(st, ws, c)
    ensures Steady(Advance(st, c, PackageItem(st, c)), ws, c - 1)
  {
    hide Level, Walks, Modest, Link, Ascending;
    var st1 := Advance(st, c, PackageItem(st, c));
    LowerWalk(st, st1, ws, c);
    InvariantBelow(st, ws, c);
    LowerLevels(st, st1, ws, c, c - 1);
    BelowModest(st, st1, ws, c);
  }

  lemma StepFits(st: Lists, ws: seq<nat>, c: nat, last: bool, limit: nat)
    requires Steady(st, ws, c) && st.asked[c] + 1 <= 2 * |ws| - 2
    requires forall i :: 1 <= i <= c ==> SumLimit(ws, i) < limit
    ensures SumsBelow(st, ws, c, last, limit) && Steady(Step(st, ws, c, false), ws, c)
    decreases c
  {
    hide Level, Walks, Link, Ascending, SumLimit, Modest;
    StepInvariant(st, ws, c);
    StepWalks(st, ws, c);
    SteadyParts(st, ws, c);
    var st' := Step(st, ws, c, false);
    if c == 0 {
      BottomFits(st, ws);
      ModestUp(st, st', ws, 0);
    } else {
      PackageLimit(st, ws, c);
      assert SumLimit(ws, c) < limit;
      if TakesLeaf(st, ws, c) {
        HeaviestLeaf(ws, st.c1[c].index, c);
        ModestAdvance(st, ws, c, LeafItem(st, ws, c));
        BelowModest(st, st', ws, c);
      } else {
        PackageFits(st, ws, c, limit);
      }
      ModestUp(st, st', ws, c);
    }
  }

  lemma PackageFits(st: Lists, ws: seq<nat>, c: nat, limit: nat)
    requires c > 0 && Steady(st, ws, c) && st.asked[c] + 1 <= 2 * |ws| - 2 && !TakesLeaf(st, ws, c)
    requires forall i :: 1 <= i < c ==> SumLimit(ws, i) < limit
    ensures var st1 := Advance(st, c, PackageItem(st, c)); var st2 := Step(st1, ws, c - 1, false);
            && SumsBelow(st1, ws, c - 1, false, limit) && SumsBelow(st2, ws, c - 1, false, limit)
            && var st3 := Step(st2, ws, c - 1, false); Modest(st3, ws, c) && AllModest(st3, ws, c - 1)
    decreases c, 0
  {
    hide Level, Walks, Link, Ascending, SumLimit, Modest, SumsBelow;
    SteadyParts(st, ws, c);
    ModestPackage(st, ws, c);
    ModestAdvance(st, ws, c, PackageItem(st, c));
    var st1 := Advance(st, c, PackageItem(st, c));
    SteadyBelow(st, ws, c);
    RoomBelow(st, ws, c);
    StepFits(st1, ws, c - 1, false, limit);
    StepInvariant(st1, ws, c - 1);
    var st2 := Step(st1, ws, c - 1, false);
    StepFits(st2, ws, c - 1, false, limit);
    StepInvariant(st2, ws, c - 1);
    ModestKept(st1, Step(st2, ws, c - 1, false), ws, c);
  }

  // ---------- the whole run ----------

  lemma InitialModest(ws: seq<nat>, size: nat)
    requires |ws| >= 2 && Ascending(ws) && size > 0
    ensures AllModest(Initial(ws, size), ws, size - 1)
  {
    hide Shl;
    forall c | 0 <= c < size
      ensures Modest(Initial(ws, size), ws, c)
    {
      HeaviestLeaf(ws, 0, c);
      HeaviestLeaf(ws, 1, c);
    }
  }

  lemma {:induction false} RunSteady(ws: seq<nat>, size: nat, k: nat, limit: nat)
    requires |ws| >= 2 && Ascending(ws) && ws[0] > 0 && size > 0
    requires forall c :: 1 <= c < size ==> SumLimit(ws, c) < limit
    requires 2 <= k && (k == 2 || k < 2 * |ws| - 2)
    ensures Steady(RunTo(ws, size, k), ws, size - 1) && RunTo(ws, size, k).asked[size - 1] == k
  {
    hide Invariant, Walks, Modest, Ascending, SumLimit, SumsBelow;
    RunInvariant(ws, size, k);
    RunWalks(ws, size, k);
    if k == 2 {
      InitialModest(ws, size);
    } else {
      RunSteady(ws, size, k - 1, limit);
      StepFits(RunTo(ws, size, k - 1), ws, size - 1, false, limit);
    }
  }

  /** Every sum of two weights that the whole run computes is below any number that is above the limit of each
      list: the heaviest leaf times 2^c while 2^c is less than the number of leaves, and 2c times the sum of all
      leaves from there on. */
  lemma RunSums(ws: seq<nat>, size: nat, k: nat, limit: nat)
    requires |ws| >= 2 && Ascending(ws) && ws[0] > 0 && size > 0 && 3 <= k <= 2 * |ws| - 2
    requires forall c :: 1 <= c < size ==> SumLimit(ws, c) < limit
    ensures SumsBelow(RunTo(ws, size, k - 1), ws, size - 1, k >= 2 * |ws| - 2, limit)
  {
    hide Steady, Ascending, SumLimit, SumsBelow, RunTo;
    RunSteady(ws, size, k - 1, limit);
    StepFits(RunTo(ws, size, k - 1), ws, size - 1, k >= 2 * |ws| - 2, limit);
  }

  /** With frequencies of less than 2^23 in all, no sum leaves 31 bits. */
  lemma NoOverflow(ws: seq<nat>, size: nat, k: nat)
    requires 2 <= |ws| <= 512 && Ascending(ws) && ws[0] > 0 && 0 < size <= 15 && 3 <= k <= 2 * |ws| - 2
    requires Sum(ws) < 0x80_0000
    ensures SumsBelow(RunTo(ws, size, k - 1), ws, size - 1, k >= 2 * |ws| - 2, 0x8000_0000)
  {
    hide SumsBelow, RunTo, SumLimit, Ascending, Sum;
    forall c | 1 <= c < size
      ensures SumLimit(ws, c) < 0x8000_0000
    {
      SmallLimit(ws, c);
    }
    RunSums(ws, size, k, 0x8000_0000);
  }

  lemma SmallLimit(ws: seq<nat>, c: nat)
    requires 2 <= |ws| <= 512 && 1 <= c <= 14 && Sum(ws) < 0x80_0000
    ensures SumLimit(ws, c) < 0x8000_0000
  {
    hide Sum, Shl, Pow2;
    var w := ws[|ws| - 1];
    ItemInSum(ws, |ws| - 1);
    if Pow2(c) < |ws| {
      PowersToNine();
      if c >= 9 { Pow2Mono(9, c); }
      ShlShl(w, c, 8 - c);
      ShlTimes(w, 8);
      ShlGrows(Shl(w, c), 8 - c);
    } else {
      assert c * Sum(ws) <= 14 * Sum(ws);
    }
  }

  lemma PowersToNine()
    ensures Pow2(8) == 256 && Pow2(9) == 512
  {
    assert Pow2(4) == 16;
  }

  lemma {:induction false} ShlTimes(x: nat, k: nat)
    ensures Shl(x, k) == x * Pow2(k)
  {
    if k > 0 {
      ShlTimes(x, k - 1);
      assert x * (2 * Pow2(k - 1)) == 2 * (x * Pow2(k - 1));
    }
  }

  lemma {:induction false} ShlGrows(x: nat, k: nat)
    ensures x <= Shl(x, k)
  {
    if k > 0 {
      ShlGrows(x, k - 1);
    }
  }

  /** The lists of four symbols with these frequencies after four items. */
  function FourItems(): Lists
  {
    Lists([Node(1, 3, Nil), Node(1, 3, Nil), Node(1, 3, Nil)],
          [Node(3, 4, Nil), Node(2, 3, Node(1, 2, Nil)), Node(2, 3, Node(1, 2, Nil))], [4, 4, 4])
  }

  lemma FourItemsReached()
    ensures RunTo([1, 1, 1, 3], 3, 4) == FourItems()
  {
    var ws := [1, 1, 1, 3];
    var s3 := Advance(Initial(ws, 3), 2, Node(1, 3, Nil));
    assert RunTo(ws, 3, 2) == Initial(ws, 3) && RunTo(ws, 3, 3) == s3;
    var s4 := Step(s3, ws, 2, false);
    assert s4.c0 == FourItems().c0 && s4.c1 == FourItems().c1 && s4.asked == FourItems().asked;
  }

  lemma FourthItem()
    ensures Sum([1, 1, 1, 3]) == 6
    ensures PackageWeight(Step(FourItems(), [1, 1, 1, 3], 2, false), 2) == 7
  {
    assert [1, 1, 1, 3][..3] == [1, 1, 1] && [1, 1, 1][..2] == [1, 1] && [1, 1][..1] == [1] && [1][..0] == [];
  }

  /** A package can weigh more than all symbols together: with these frequencies, 7 where the sum is 6. */
  lemma HeavyPackage()
    ensures Sum([1, 1, 1, 3]) == 6 && PackageWeight(RunTo([1, 1, 1, 3], 3, 5), 2) == 7
  {
    hide Step, Sum, FourItems, PackageWeight;
    FourItemsReached();
    FourthItem();
  }
}
