/**
 Boundary package-merge walks along the full lists: the chains it keeps weigh what the first items of
 their lists weigh, and so the final chain weighs what the lightest 2n - 2 items of the last list do.
 */
module PackageWalk {
  import opened Bits
  import opened PackageMerge
  import opened PackageLists

  /** What a chain's leaves weigh, in all its nodes together. */
  function Cost(ws: seq<nat>, ch: Chain): nat
  {
    match ch
    case Nil => 0
    case Node(_, a, t) => Sum(ws[..if a <= |ws| then a else |ws|]) + Cost(ws, t)
  }

  /** How many of the first k items of list c are leaves. */
  function LeavesOfList(ws: seq<nat>, c: nat, k: nat): (a: nat)
    requires k <= Capacity(|ws|, c)
    ensures a <= k && a <= |ws|
  {
    if c == 0 then k else LeavesIn(ws, Pairs(List(ws, c - 1)), k)
  }

  /** The two chains of list c stand at its items k - 1 and k. */
  ghost predicate Walks(st: Lists, ws: seq<nat>, c: nat)
    requires Shape(st) && c < |st.c0|
  {
    var k := st.asked[c];
    k >= 2 && (k <= Capacity(|ws|, c) ==>
      && st.c0[c].weight == List(ws, c)[k - 2] && st.c1[c].weight == List(ws, c)[k - 1]
      && st.c1[c].index == LeavesOfList(ws, c, k)
      && Cost(ws, st.c1[c]) == Sum(List(ws, c)[..k]))
  }

  ghost predicate AllWalk(st: Lists, ws: seq<nat>, m: nat)
  {
    Shape(st) && m < |st.c0| && forall c :: 0 <= c <= m ==> Walks(st, ws, c)
  }

  // ---------- the start ----------

  /** Two packages are heavier than the two lightest leaves, so every list starts with these. */
  lemma {:induction false} ListStarts(ws: seq<nat>, c: nat)
    requires |ws| >= 2 && Ascending(ws) && ws[0] > 0
    ensures List(ws, c)[0] == ws[0] && List(ws, c)[1] == ws[1] && LeavesOfList(ws, c, 2) == 2
  {
    if c > 0 {
      ListStarts(ws, c - 1);
      var l := List(ws, c - 1);
      var y := Pairs(l);
      assert y[0] == ws[0] + ws[1];
      TwoLeaves(ws, y);
    }
  }

  lemma TwoLeaves(x: seq<nat>, y: seq<nat>)
    requires |x| >= 2 && Ascending(x) && (|y| > 0 ==> y[0] > x[1])
    ensures Merged(x, y)[0] == x[0] && Merged(x, y)[1] == x[1] && LeavesIn(x, y, 2) == 2
  {
    FirstItem(x, y);
    NextItem(x, y, 0);
    NextItem(x, y, 1);
  }

  lemma InitialWalks(ws: seq<nat>, size: nat)
    requires |ws| >= 2 && Ascending(ws) && ws[0] > 0 && size > 0
    ensures AllWalk(Initial(ws, size), ws, size - 1)
  {
    var st := Initial(ws, size);
    forall c | 0 <= c < size
      ensures Walks(st, ws, c)
    {
      ListStarts(ws, c);
      FirstTwo(ws);
      FirstTwo(List(ws, c));
    }
  }

  lemma FirstTwo(s: seq<nat>)
    requires |s| >= 2
    ensures Sum(s[..2]) == s[0] + s[1]
  {
    SumNone(s);
    SumSnoc(s, 0);
    SumSnoc(s, 1);
  }

  // ---------- one step ----------

  /** The package that is offered to list c is the next pair of list c - 1, if there is one. */
  lemma OfferedPackage(st: Lists, ws: seq<nat>, c: nat)
    requires Shape(st) && 1 <= c < |st.c0| && Ascending(ws)
    requires Level(st, ws, c) && Level(st, ws, c - 1) && Link(st, c) && Walks(st, ws, c) && Walks(st, ws, c - 1)
    requires st.asked[c] + 1 <= Capacity(|ws|, c)
    ensures var y := Pairs(List(ws, c - 1)); var a := st.c1[c].index; var p := st.asked[c] - a;
            && a <= |ws| && 0 <= p <= |y| && (TakesLeaf(st, ws, c) <==> !NextIsPackage(ws, y, a, p))
            && (!TakesLeaf(st, ws, c) ==> p < |y| && PackageWeight(st, c) == y[p]
                                          && st.asked[c - 1] == 2 * p + 2 <= Capacity(|ws|, c - 1))
  {
    hide Capacity, Items, Depth, Level;
    CapacityStep(|ws|, c);
    var a, k := st.c1[c].index, st.asked[c];
    var y := Pairs(List(ws, c - 1));
    var p := k - a;
    if st.asked[c - 1] <= Capacity(|ws|, c - 1) {
      assert PackageWeight(st, c) == List(ws, c - 1)[2 * p] + List(ws, c - 1)[2 * p + 1];
    } else if !TakesLeaf(st, ws, c) {
      PackageExists(st, ws, c);
    }
  }

  lemma LeafWalks(st: Lists, ws: seq<nat>, c: nat)
    requires Shape(st) && 1 <= c < |st.c0| && Ascending(ws)
    requires Level(st, ws, c) && Level(st, ws, c - 1) && Link(st, c) && Walks(st, ws, c) && Walks(st, ws, c - 1)
    requires TakesLeaf(st, ws, c)
    ensures var st' := Advance(st, c, LeafItem(st, ws, c)); Shape(st') && Walks(st', ws, c)
  {
    hide Capacity, Items, Depth, Level, Link, Sum, LeavesIn, Merged;
    var a, k := st.c1[c].index, st.asked[c];
    if k + 1 <= Capacity(|ws|, c) {
      OfferedPackage(st, ws, c);
      NextItem(ws, Pairs(List(ws, c - 1)), k);
      SumSnoc(List(ws, c), k);
      SumSnoc(ws, a);
    }
  }

  lemma PackageWalks(st: Lists, ws: seq<nat>, c: nat)
    requires Shape(st) && 1 <= c < |st.c0| && Ascending(ws)
    requires Level(st, ws, c) && Level(st, ws, c - 1) && Link(st, c) && Walks(st, ws, c) && Walks(st, ws, c - 1)
    requires !TakesLeaf(st, ws, c)
    ensures var st' := Advance(st, c, PackageItem(st, c)); Shape(st') && Walks(st', ws, c)
  {
    hide Capacity, Items, Depth, Level, Link, Sum, LeavesIn, Merged;
    var a, k := st.c1[c].index, st.asked[c];
    if k + 1 <= Capacity(|ws|, c) {
      OfferedPackage(st, ws, c);
      var y := Pairs(List(ws, c - 1));
      NextItem(ws, y, k);
      FirstItems(ws, y, k + 1);
      SumPairs(List(ws, c - 1), k + 1 - a);
    }
  }

  lemma BottomWalks(st: Lists, ws: seq<nat>)
    requires Shape(st) && 0 < |st.c0| && Ascending(ws) && Level(st, ws, 0) && Walks(st, ws, 0)
    ensures Walks(Step(st, ws, 0, false), ws, 0)
  {
    hide Sum, Items, Depth;
    var a, k := st.c1[0].index, st.asked[0];
    if a < |ws| && k + 1 <= |ws| {
      SumSnoc(ws, k);
    }
  }

  /** Lists that stay as they are still walk. */
  lemma WalksKept(st: Lists, st': Lists, ws: seq<nat>, c: nat)
    requires Shape(st) && Shape(st') && c < |st.c0| == |st'.c0| && Walks(st, ws, c)
    requires st'.c0[c] == st.c0[c] && st'.c1[c] == st.c1[c] && st'.asked[c] == st.asked[c]
    ensures Walks(st', ws, c)
  {
    hide Sum, List, LeavesOfList, Cost, Capacity;
  }

  lemma LowerWalk(st: Lists, st': Lists, ws: seq<nat>, c: nat)
    requires 1 <= c && AllWalk(st, ws, c) && Shape(st') && SameBelow(st, st', c)
    ensures AllWalk(st', ws, c - 1)
  {
    hide Walks;
    forall i | 0 <= i <= c - 1
      ensures Walks(st', ws, i)
    {
      WalksKept(st, st', ws, i);
    }
  }

  lemma WalkParts(st: Lists, ws: seq<nat>, c: nat)
    requires Invariant(st, ws, c) && AllWalk(st, ws, c)
    ensures Shape(st) && c < |st.c0| && Ascending(ws) && Level(st, ws, c) && Walks(st, ws, c)
    ensures c > 0 ==> Level(st, ws, c - 1) && Link(st, c) && Walks(st, ws, c - 1)
  {
    hide Level, Link, Walks;
  }

  lemma {:induction false} StepWalks(st: Lists, ws: seq<nat>, c: nat)
    requires Invariant(st, ws, c) && AllWalk(st, ws, c)
    ensures AllWalk(Step(st, ws, c, false), ws, c)
    decreases c
  {
    hide Level, Link, Walks, Ascending;
    WalkParts(st, ws, c);
    if c == 0 {
      BottomWalks(st, ws);
    } else if TakesLeaf(st, ws, c) {
      LeafWalks(st, ws, c);
      LowerWalk(st, Advance(st, c, LeafItem(st, ws, c)), ws, c);
    } else {
      PackageWalks(st, ws, c);
      var st1 := Advance(st, c, PackageItem(st, c));
      LowerWalk(st, st1, ws, c);
      InvariantBelow(st, ws, c);
      LowerLevels(st, st1, ws, c, c - 1);
      var st2 := Step(st1, ws, c - 1, false);
      StepInvariant(st1, ws, c - 1);
      StepWalks(st1, ws, c - 1);
      StepInvariant(st2, ws, c - 1);
      StepWalks(st2, ws, c - 1);
      WalksKept(st1, Step(st2, ws, c - 1, false), ws, c);
    }
  }

  // ---------- the whole run ----------

  lemma {:induction false} RunWalks(ws: seq<nat>, size: nat, k: nat)
    requires |ws| >= 2 && Ascending(ws) && ws[0] > 0 && size > 0
    requires 2 <= k && (k == 2 || k < 2 * |ws| - 2)
    ensures AllWalk(RunTo(ws, size, k), ws, size - 1)
  {
    hide Walks, Ascending;
    if k == 2 {
      InitialWalks(ws, size);
    } else {
      RunWalks(ws, size, k - 1);
      RunInvariant(ws, size, k - 1);
      StepWalks(RunTo(ws, size, k - 1), ws, size - 1);
    }
  }

  lemma FinalWalks(ws: seq<nat>, size: nat)
    requires |ws| >= 2 && Ascending(ws) && ws[0] > 0 && size > 0
    ensures Walks(RunTo(ws, size, 2 * |ws| - 2), ws, size - 1)
  {
    hide Walks, Ascending, Level, Link;
    var m, c := 2 * |ws| - 2, size - 1;
    if m == 2 {
      RunWalks(ws, size, 2);
    } else {
      RunInvariant(ws, size, m - 1);
      RunWalks(ws, size, m - 1);
      var st := RunTo(ws, size, m - 1);
      WalkParts(st, ws, c);
      if c == 0 {
        BottomWalks(st, ws);
      } else if TakesLeaf(st, ws, c) {
        LeafWalks(st, ws, c);
      } else {
        PackageWalks(st, ws, c);
      }
    }
  }

  /** The final chain weighs what the lightest 2n - 2 items of the last list weigh. */
  lemma FinalCost(ws: seq<nat>, size: nat)
    requires |ws| >= 2 && Ascending(ws) && ws[0] > 0 && size > 0 && |ws| <= Pow2(size)
    ensures 2 * |ws| - 2 <= Capacity(|ws|, size - 1)
    ensures Cost(ws, FinalChain(ws, size)) == Sum(List(ws, size - 1)[..2 * |ws| - 2])
  {
    hide Step, Ascending, Sum, List, Cost, LeavesOfList;
    FinalLevel(ws, size);
    FinalWalks(ws, size);
    CapacityEnough(|ws|, size - 1, 1);
    assert Pow2(1) == 2;
  }
}
