/**
 Boundary package-merge on values: the look-ahead chains of each list, one step of the
 algorithm, the invariant every step keeps, and the code lengths read off the final chain.

 The k-th item of list c is a leaf or a package of two items of list c - 1. A chain node stands
 for the first k items of its list, `index` of which are leaves; its tail stands for the items
 of list c - 1 inside the k - index packages. List c only has capacity for n + Capacity(c-1)/2
 items; the look-ahead may run past that, and the invariant says that such a bogus item is too
 heavy to be chosen.
 */
module PackageMerge {
  import opened Bits

  datatype Chain = Nil | Node(weight: nat, index: nat, tail: Chain)

  /** The two look-ahead chains of every list, and how many items each list was asked for. */
  datatype Lists = Lists(c0: seq<Chain>, c1: seq<Chain>, asked: seq<nat>)

  ghost predicate Shape(st: Lists)
  {
    && |st.c0| == |st.c1| == |st.asked|
    && forall c :: 0 <= c < |st.c0| ==> st.c0[c].Node? && st.c1[c].Node?
  }

  /** Every list starts with the two lightest leaves. */
  function Initial(ws: seq<nat>, size: nat): Lists
    requires |ws| >= 2
  {
    Lists(seq(size, i => Node(ws[0], 1, Nil)), seq(size, i => Node(ws[1], 2, Nil)), seq(size, i => 2))
  }

  function PackageWeight(st: Lists, c: nat): nat
    requires 1 <= c <= |st.c0| && |st.c0| == |st.c1| && st.c0[c - 1].Node? && st.c1[c - 1].Node?
  {
    st.c0[c - 1].weight + st.c1[c - 1].weight
  }

  /** List c moves on to the given item. */
  function Advance(st: Lists, c: nat, item: Chain): Lists
    requires c < |st.c0| == |st.c1| == |st.asked|
  {
    Lists(st.c0[c := st.c1[c]], st.c1[c := item], st.asked[c := st.asked[c] + 1])
  }

  predicate TakesLeaf(st: Lists, ws: seq<nat>, c: nat)
    requires 1 <= c < |st.c0| && |st.c0| == |st.c1| && st.c0[c - 1].Node? && st.c1[c - 1].Node? && st.c1[c].Node?
  {
    st.c1[c].index < |ws| && PackageWeight(st, c) > ws[st.c1[c].index]
  }

  function LeafItem(st: Lists, ws: seq<nat>, c: nat): (item: Chain)
    requires c < |st.c1| && st.c1[c].Node? && st.c1[c].index < |ws|
    ensures item.Node?
  {
    Node(ws[st.c1[c].index], st.c1[c].index + 1, if c == 0 then Nil else st.c1[c].tail)
  }

  function PackageItem(st: Lists, c: nat): (item: Chain)
    requires 1 <= c < |st.c1| && |st.c0| == |st.c1| && st.c0[c - 1].Node? && st.c1[c - 1].Node? && st.c1[c].Node?
    ensures item.Node?
  {
    Node(PackageWeight(st, c), st.c1[c].index, st.c1[c - 1])
  }

  /** One more item for list c; when a package is taken, list c - 1 must look two items further,
      unless this is the last step. */
  ghost function Step(st: Lists, ws: seq<nat>, c: nat, last: bool): (r: Lists)
    requires Shape(st) && c < |st.c0|
    ensures Shape(r) && |r.c0| == |st.c0|
    decreases c
  {
    if c == 0 then
      if st.c1[0].index >= |ws| then st.(asked := st.asked[0 := st.asked[0] + 1])
      else Advance(st, 0, LeafItem(st, ws, 0))
    else if TakesLeaf(st, ws, c) then Advance(st, c, LeafItem(st, ws, c))
    else
      var st1 := Advance(st, c, PackageItem(st, c));
      if last then st1 else Step(Step(st1, ws, c - 1, false), ws, c - 1, false)
  }

  // ---------- the invariant ----------

  /** How many items list c can have: every leaf, and the packages of list c - 1. */
  function Capacity(n: nat, c: nat): (k: nat)
    ensures k >= n
  {
    if c == 0 then n else n + Capacity(n, c - 1) / 2
  }

  /** A chain of k items: index leaves, and packages of the 2 * (k - index) items of the tail. */
  ghost predicate Items(ch: Chain, k: nat)
  {
    match ch
    case Nil => k == 0
    case Node(_, a, t) =>
      && a <= k && Items(t, 2 * (k - a))
      && (t.Node? ==> t.index <= a && k > a)
  }

  function Depth(ch: Chain): nat
  {
    match ch
    case Nil => 0
    case Node(_, _, t) => 1 + Depth(t)
  }

  ghost predicate Ascending(ws: seq<nat>)
  {
    forall i, j :: 0 <= i < j < |ws| ==> ws[i] <= ws[j]
  }

  /** What holds of list c by itself. */
  ghost predicate Level(st: Lists, ws: seq<nat>, c: nat)
    requires Shape(st) && c < |st.c0|
  {
    var a, k := st.c1[c].index, st.asked[c];
    && 1 <= a <= |ws| && a <= k
    && 0 < st.c0[c].weight <= st.c1[c].weight
    && ws[a - 1] <= st.c1[c].weight
    && (a < |ws| ==> st.c1[c].weight <= ws[a])
    && (k <= Capacity(|ws|, c) ==> Items(st.c1[c], k))
    && (k > Capacity(|ws|, c) ==> a == |ws|)
    && (c == 0 ==> st.c1[c].tail == Nil && (k <= |ws| ==> a == k))
    && (c > 0 && k <= Capacity(|ws|, c) ==> 2 * (k - a) <= Capacity(|ws|, c - 1))
    && Depth(st.c1[c]) <= c + 1
  }

  /** List c - 1 looks one package ahead of list c. */
  ghost predicate Link(st: Lists, c: nat)
    requires Shape(st) && 1 <= c < |st.c0|
  {
    && st.asked[c - 1] == 2 * (st.asked[c] - st.c1[c].index) + 2
    && st.c1[c].weight <= PackageWeight(st, c)
  }

  ghost predicate Invariant(st: Lists, ws: seq<nat>, m: nat)
  {
    && Shape(st) && m < |st.c0| && Ascending(ws)
    && (forall c :: 0 <= c <= m ==> Level(st, ws, c))
    && (forall c :: 1 <= c <= m ==> Link(st, c))
  }

  lemma InitialInvariant(ws: seq<nat>, size: nat)
    requires |ws| >= 2 && Ascending(ws) && ws[0] > 0 && size > 0
    ensures Invariant(Initial(ws, size), ws, size - 1)
  {
    var st := Initial(ws, size);
    forall c | 0 <= c < size
      ensures Level(st, ws, c)
    {
      assert Items(Nil, 0) && Items(Node(ws[1], 2, Nil), 2);
      assert Depth(Node(ws[1], 2, Nil)) == 1;
    }
  }

  // ---------- each step keeps it ----------

  /** Taking a leaf in list c > 0. */
  lemma LeafLevel(st: Lists, ws: seq<nat>, c: nat)
    requires Shape(st) && 1 <= c < |st.c0| && Ascending(ws)
    requires Level(st, ws, c) && Link(st, c) && TakesLeaf(st, ws, c)
    ensures var st' := Advance(st, c, LeafItem(st, ws, c));
            Shape(st') && Level(st', ws, c) && Link(st', c)
  {
    hide Capacity;
    CapacityStep(|ws|, c);
    var a, k := st.c1[c].index, st.asked[c];
    var item := LeafItem(st, ws, c);
    if k <= Capacity(|ws|, c) {
      assert Items(item, k + 1);
    }
  }

  lemma CapacityStep(n: nat, c: nat)
    ensures c > 0 ==> Capacity(n, c) == n + Capacity(n, c - 1) / 2
    ensures c == 0 ==> Capacity(n, c) == n
  {
  }

  /** Taking a leaf in list 0, or finding it exhausted. */
  lemma BottomLevel(st: Lists, ws: seq<nat>)
    requires Shape(st) && 0 < |st.c0| && Ascending(ws) && Level(st, ws, 0)
    ensures var st' := Step(st, ws, 0, false);
            Level(st', ws, 0) && st'.c0[0].weight >= st.c0[0].weight && st'.c1[0].weight >= st.c1[0].weight
  {
    var a, k := st.c1[0].index, st.asked[0];
    if a < |ws| {
      var item := LeafItem(st, ws, 0);
      assert Items(Nil, 0) && Depth(Nil) == 0;
      assert k <= |ws| ==> Items(item, k + 1);
      assert Depth(item) == 1;
    }
  }

  lemma LeafOrder(ws: seq<nat>, a: nat, b: nat)
    requires Ascending(ws)
    ensures a <= b < |ws| ==> ws[a] <= ws[b]
  {
  }

  /** A package that list c takes within its capacity is made of items that exist. */
  lemma PackageExists(st: Lists, ws: seq<nat>, c: nat)
    requires Shape(st) && 1 <= c < |st.c0| && Ascending(ws)
    requires Level(st, ws, c) && Level(st, ws, c - 1) && Link(st, c) && !TakesLeaf(st, ws, c)
    requires st.asked[c] + 1 <= Capacity(|ws|, c)
    ensures st.asked[c - 1] <= Capacity(|ws|, c - 1)
  {
    hide Capacity, Items, Depth;
    CapacityStep(|ws|, c);
    LeafOrder(ws, st.c1[c].index, |ws| - 1);
  }

  /** The package has no more leaves below it than list c has taken itself. */
  lemma PackageIndex(st: Lists, ws: seq<nat>, c: nat)
    requires Shape(st) && 1 <= c < |st.c0| && Ascending(ws)
    requires Level(st, ws, c) && Level(st, ws, c - 1) && !TakesLeaf(st, ws, c)
    ensures st.c1[c - 1].index <= st.c1[c].index
  {
    hide Capacity, Items, Depth;
    LeafOrder(ws, st.c1[c].index, st.c1[c - 1].index - 1);
  }

  lemma PackageLevel(st: Lists, ws: seq<nat>, c: nat)
    requires Shape(st) && 1 <= c < |st.c0| && Ascending(ws)
    requires Level(st, ws, c) && Level(st, ws, c - 1) && Link(st, c) && !TakesLeaf(st, ws, c)
    ensures var st' := Advance(st, c, PackageItem(st, c));
            Shape(st') && Level(st', ws, c)
  {
    hide Capacity;
    CapacityStep(|ws|, c);
    PackageIndex(st, ws, c);
    var a, k := st.c1[c].index, st.asked[c];
    var item := PackageItem(st, c);
    if k + 1 <= Capacity(|ws|, c) {
      PackageExists(st, ws, c);
      assert Items(item, k + 1);
    }
  }

  ghost predicate SameBelow(st: Lists, st': Lists, c: nat)
  {
    && |st.c0| == |st'.c0| == |st.c1| == |st'.c1| == |st.asked| == |st'.asked| && c <= |st.c0|
    && forall i :: 0 <= i < c ==> st'.c0[i] == st.c0[i] && st'.c1[i] == st.c1[i] && st'.asked[i] == st.asked[i]
  }

  /** Lists below c do not see a change of list c. */
  lemma LowerLevels(st: Lists, st': Lists, ws: seq<nat>, c: nat, m: nat)
    requires Invariant(st, ws, m) && Shape(st') && m < c && SameBelow(st, st', c)
    ensures Invariant(st', ws, m)
  {
    hide Capacity, Items, Depth;
    forall i | 0 <= i <= m
      ensures Level(st', ws, i)
    {
      assert Level(st, ws, i);
    }
    forall i | 1 <= i <= m
      ensures Link(st', i)
    {
      assert Link(st, i);
    }
  }

  /** Lists at and above c stay as they are. */
  ghost predicate SameFrom(st: Lists, st': Lists, c: nat)
  {
    && |st.c0| == |st'.c0| == |st.c1| == |st'.c1| == |st.asked| == |st'.asked|
    && forall i :: c <= i < |st.c0| ==> st'.c0[i] == st.c0[i] && st'.c1[i] == st.c1[i] && st'.asked[i] == st.asked[i]
  }

  /** The look-ahead of list c got one item further and no lighter. */
  ghost predicate Forward(st: Lists, st': Lists, c: nat)
    requires Shape(st) && Shape(st') && c < |st.c0| == |st'.c0|
  {
    && st'.asked[c] == st.asked[c] + 1
    && st'.c0[c].weight >= st.c0[c].weight
    && st'.c1[c].weight >= st.c1[c].weight
  }

  lemma {:induction false} StepInvariant(st: Lists, ws: seq<nat>, c: nat)
    requires Invariant(st, ws, c)
    ensures var st' := Step(st, ws, c, false);
            Invariant(st', ws, c) && SameFrom(st, st', c + 1) && Forward(st, st', c)
    decreases c, 1
  {
    hide Capacity, Items, Depth, Level, Link;
    assert Level(st, ws, c);
    LevelWeights(st, ws, c);
    if c == 0 {
      BottomLevel(st, ws);
    } else {
      assert Level(st, ws, c - 1) && Link(st, c);
      LinkWeights(st, c);
      if TakesLeaf(st, ws, c) {
        LeafLevel(st, ws, c);
        var st' := Advance(st, c, LeafItem(st, ws, c));
        InvariantBelow(st, ws, c);
        LowerLevels(st, st', ws, c, c - 1);
        LevelWeights(st', ws, c);
      } else {
        PackageStepInvariant(st, ws, c);
      }
    }
  }

  lemma LevelWeights(st: Lists, ws: seq<nat>, c: nat)
    requires Shape(st) && c < |st.c0| && Level(st, ws, c)
    ensures st.c0[c].weight <= st.c1[c].weight
    ensures st.c1[c].index < |ws| ==> st.c1[c].weight <= ws[st.c1[c].index]
  {
  }

  lemma LinkWeights(st: Lists, c: nat)
    requires Shape(st) && 1 <= c < |st.c0| && Link(st, c)
    ensures st.c1[c].weight <= PackageWeight(st, c)
  {
  }

  lemma InvariantBelow(st: Lists, ws: seq<nat>, c: nat)
    requires c > 0 && Invariant(st, ws, c)
    ensures Invariant(st, ws, c - 1)
  {
  }

  lemma PackageStepInvariant(st: Lists, ws: seq<nat>, c: nat)
    requires 1 <= c && Invariant(st, ws, c) && !TakesLeaf(st, ws, c)
    ensures var st' := Step(st, ws, c, false);
            Invariant(st', ws, c) && SameFrom(st, st', c + 1) && Forward(st, st', c)
    decreases c, 0
  {
    hide Capacity, Items, Depth, Level, Link, Forward;
    assert Level(st, ws, c) && Level(st, ws, c - 1) && Link(st, c);
    PackageLevel(st, ws, c);
    var st1 := Advance(st, c, PackageItem(st, c));
    InvariantBelow(st, ws, c);
    LowerLevels(st, st1, ws, c, c - 1);
    TwoSteps(st1, ws, c);
    var st3 := Step(Step(st1, ws, c - 1, false), ws, c - 1, false);
    LevelKept(st1, st3, ws, c);
    LinkRestored(st, st1, st3, ws, c);
  }

  /** List c - 1 looks one package further. */
  lemma TwoSteps(st: Lists, ws: seq<nat>, c: nat)
    requires 1 <= c && Invariant(st, ws, c - 1)
    ensures var st' := Step(Step(st, ws, c - 1, false), ws, c - 1, false);
            && Invariant(st', ws, c - 1) && SameFrom(st, st', c)
            && st'.asked[c - 1] == st.asked[c - 1] + 2
            && st'.c0[c - 1].weight >= st.c0[c - 1].weight && st'.c1[c - 1].weight >= st.c1[c - 1].weight
    decreases c - 1, 2
  {
    hide Level, Link;
    StepInvariant(st, ws, c - 1);
    var st2 := Step(st, ws, c - 1, false);
    StepInvariant(st2, ws, c - 1);
  }

  lemma LevelKept(st: Lists, st': Lists, ws: seq<nat>, c: nat)
    requires Shape(st) && Shape(st') && SameFrom(st, st', c) && c < |st.c0| && Level(st, ws, c)
    ensures Level(st', ws, c)
  {
    hide Capacity, Items, Depth;
  }

  lemma LinkRestored(st: Lists, st1: Lists, st3: Lists, ws: seq<nat>, c: nat)
    requires Shape(st) && Shape(st3) && 1 <= c < |st.c0| && Link(st, c) && Level(st, ws, c)
    requires st1 == Advance(st, c, PackageItem(st, c)) && SameFrom(st1, st3, c)
    requires st3.asked[c - 1] == st.asked[c - 1] + 2
    requires st3.c0[c - 1].weight >= st.c0[c - 1].weight && st3.c1[c - 1].weight >= st.c1[c - 1].weight
    ensures Link(st3, c) && Forward(st, st3, c)
  {
    hide Capacity, Items, Depth;
  }

  // ---------- the whole run ----------

  /** The lists after the top list has been asked for k items. */
  ghost function RunTo(ws: seq<nat>, size: nat, k: nat): (st: Lists)
    requires |ws| >= 2 && size > 0 && k >= 2
    ensures Shape(st) && |st.c0| == size
  {
    if k == 2 then Initial(ws, size)
    else Step(RunTo(ws, size, k - 1), ws, size - 1, k >= 2 * |ws| - 2)
  }

  /** The chain the code lengths are read from. */
  ghost function FinalChain(ws: seq<nat>, size: nat): Chain
    requires |ws| >= 2 && size > 0
  {
    RunTo(ws, size, 2 * |ws| - 2).c1[size - 1]
  }

  lemma {:induction false} RunInvariant(ws: seq<nat>, size: nat, k: nat)
    requires |ws| >= 2 && Ascending(ws) && ws[0] > 0 && size > 0
    requires 2 <= k && (k == 2 || k < 2 * |ws| - 2)
    ensures Invariant(RunTo(ws, size, k), ws, size - 1) && RunTo(ws, size, k).asked[size - 1] == k
  {
    hide Level, Link, Ascending;
    if k == 2 {
      InitialInvariant(ws, size);
    } else {
      RunInvariant(ws, size, k - 1);
      StepInvariant(RunTo(ws, size, k - 1), ws, size - 1);
    }
  }

  lemma FinalLevel(ws: seq<nat>, size: nat)
    requires |ws| >= 2 && Ascending(ws) && ws[0] > 0 && size > 0
    ensures var st := RunTo(ws, size, 2 * |ws| - 2);
            Level(st, ws, size - 1) && st.asked[size - 1] == 2 * |ws| - 2
  {
    hide Level, Link, Ascending, Capacity;
    var m, c := 2 * |ws| - 2, size - 1;
    if m == 2 {
      RunInvariant(ws, size, 2);
    } else {
      RunInvariant(ws, size, m - 1);
      var st := RunTo(ws, size, m - 1);
      assert Level(st, ws, c);
      if c == 0 {
        BottomLevel(st, ws);
      } else {
        assert Level(st, ws, c - 1) && Link(st, c);
        if TakesLeaf(st, ws, c) { LeafLevel(st, ws, c); } else { PackageLevel(st, ws, c); }
      }
    }
  }

  /** The lists are long enough when 2^size covers the leaves. */
  lemma {:induction false} CapacityEnough(n: nat, c: nat, k: nat)
    requires n <= Pow2(k + c)
    ensures 2 * n <= Capacity(n, c) + Pow2(k)
  {
    if c > 0 {
      CapacityEnough(n, c - 1, k + 1);
    }
  }

  lemma FinalItems(ws: seq<nat>, size: nat)
    requires |ws| >= 2 && Ascending(ws) && ws[0] > 0 && size > 0 && |ws| <= Pow2(size)
    ensures var ch := FinalChain(ws, size);
            ch.Node? && ch.index <= |ws| && Items(ch, 2 * |ws| - 2) && Depth(ch) <= size
  {
    hide Step, Ascending, Items, Depth;
    FinalLevel(ws, size);
    CapacityEnough(|ws|, size - 1, 1);
    assert Pow2(1) == 2;
  }

  // ---------- code lengths and their Kraft sum ----------

  /** The code length of leaf i: how many nodes of the chain count it. */
  function CodeLength(ch: Chain, i: nat): (l: nat)
    ensures l <= Depth(ch)
  {
    match ch
    case Nil => 0
    case Node(_, a, t) => CodeLength(t, i) + if i < a then 1 else 0
  }

  /** The Kraft sum of the first n leaves, in units of 2^-bits. */
  function KraftOfChain(ch: Chain, n: nat, bits: nat): nat
    requires Depth(ch) <= bits
  {
    if n == 0 then 0 else KraftOfChain(ch, n - 1, bits) + Pow2(bits - CodeLength(ch, n - 1))
  }

  /** Leaves past the index are in no node. */
  lemma {:induction false} LengthPastIndex(ch: Chain, k: nat, i: nat)
    requires Items(ch, k) && (ch.Node? ==> i >= ch.index)
    ensures CodeLength(ch, i) == 0
  {
    if ch.Node? {
      LengthPastIndex(ch.tail, 2 * (k - ch.index), i);
    }
  }

  /** Within the index, the first node counts each leaf once. */
  lemma {:induction false} KraftInside(ch: Chain, n: nat, bits: nat)
    requires ch.Node? && n <= ch.index && 1 <= Depth(ch) <= bits
    ensures KraftOfChain(ch, n, bits) == KraftOfChain(ch.tail, n, bits - 1)
  {
    if n > 0 {
      KraftInside(ch, n - 1, bits);
    }
  }

  /** Past it, each leaf counts in full. */
  lemma {:induction false} KraftOutside(ch: Chain, k: nat, n: nat, bits: nat)
    requires Items(ch, k) && ch.Node? && n >= ch.index && Depth(ch) <= bits
    ensures KraftOfChain(ch, n, bits) == KraftOfChain(ch, ch.index, bits) + Shl(n - ch.index, bits)
  {
    if n == ch.index {
      ShlZero(bits);
    } else {
      KraftOutside(ch, k, n - 1, bits);
      LengthPastIndex(ch, k, n - 1);
      ShlAdd(n - 1 - ch.index, 1, bits);
      ShlOne(bits);
    }
  }

  lemma {:induction false} KraftOfNil(n: nat, bits: nat)
    ensures KraftOfChain(Nil, n, bits) == Shl(n, bits)
  {
    if n == 0 {
      ShlZero(bits);
    } else {
      KraftOfNil(n - 1, bits);
      ShlAdd(n - 1, 1, bits);
      ShlOne(bits);
    }
  }

  /** A chain of k items lowers the Kraft sum of its n leaves by k halves. */
  lemma {:induction false} KraftOfItems(ch: Chain, k: nat, n: nat, bits: nat)
    requires Items(ch, k) && (ch.Node? ==> ch.index <= n) && Depth(ch) < bits
    ensures KraftOfChain(ch, n, bits) + Shl(k, bits - 1) == Shl(n, bits)
    decreases ch
  {
    if ch.Nil? {
      KraftOfNil(n, bits);
      ShlZero(bits - 1);
    } else {
      var a := ch.index;
      KraftOutside(ch, k, n, bits);
      KraftInside(ch, a, bits);
      KraftOfItems(ch.tail, 2 * (k - a), a, bits - 1);
      ItemsArithmetic(k, a, n, bits);
    }
  }

  lemma ItemsArithmetic(k: nat, a: nat, n: nat, bits: nat)
    requires a <= k && a <= n && bits >= 2
    ensures Shl(2 * (k - a), bits - 2) + Shl(a, bits - 1) == Shl(k, bits - 1)
    ensures Shl(n, bits) == Shl(n - a, bits) + 2 * Shl(a, bits - 1)
  {
    ShlShl(k - a, 1, bits - 2);
    assert Shl(k - a, 1) == 2 * (k - a);
    ShlAdd(k - a, a, bits - 1);
    ShlAdd(n - a, a, bits);
  }

  lemma {:induction false} KraftScale(ch: Chain, n: nat, bits: nat)
    requires Depth(ch) <= bits
    ensures KraftOfChain(ch, n, bits + 1) == 2 * KraftOfChain(ch, n, bits)
  {
    if n > 0 {
      KraftScale(ch, n - 1, bits);
    }
  }

  /** Boundary package-merge gives a complete prefix code within the length limit. */
  lemma FinalKraft(ws: seq<nat>, size: nat, bits: nat)
    requires |ws| >= 2 && Ascending(ws) && ws[0] > 0 && 0 < size <= bits && |ws| <= Pow2(size)
    ensures var ch := FinalChain(ws, size);
            && Depth(ch) <= size
            && KraftOfChain(ch, |ws|, bits) == Pow2(bits)
            && forall i :: 0 <= i < |ws| ==> CodeLength(ch, i) > 0
  {
    hide FinalChain, Items, Depth, CodeLength, Ascending, KraftOfChain, Shl, Pow2;
    var ch, n := FinalChain(ws, size), |ws|;
    FinalItems(ws, size);
    KraftOfItems(ch, 2 * n - 2, n, bits + 1);
    AllButOne(n, bits);
    KraftScale(ch, n, bits);
    forall i | 0 <= i < n
      ensures CodeLength(ch, i) > 0
    {
      NoZeroLength(ch, n, i, bits);
    }
  }

  lemma AllButOne(n: nat, bits: nat)
    requires n >= 1
    ensures Shl(2 * n - 2, bits) + 2 * Pow2(bits) == Shl(n, bits + 1)
  {
    ShlShl(n - 1, 1, bits);
    assert Shl(n - 1, 1) == 2 * n - 2;
    ShlAdd(n - 1, 1, bits + 1);
    ShlOne(bits + 1);
  }

  /** A leaf of length 0 would use up the whole code space by itself. */
  lemma {:induction false} NoZeroLength(ch: Chain, n: nat, i: nat, bits: nat)
    requires Depth(ch) <= bits && i < n && n >= 2 && KraftOfChain(ch, n, bits) <= Pow2(bits)
    ensures CodeLength(ch, i) > 0
  {
    if CodeLength(ch, i) == 0 {
      OneLeafKraft(ch, n, i, bits);
    }
  }

  lemma {:induction false} OneLeafKraft(ch: Chain, n: nat, i: nat, bits: nat)
    requires Depth(ch) <= bits && i < n
    ensures KraftOfChain(ch, n, bits) >= Pow2(bits - CodeLength(ch, i)) + (n - 1)
    decreases n
  {
    if i == n - 1 {
      KraftAtLeast(ch, n - 1, bits);
    } else {
      OneLeafKraft(ch, n - 1, i, bits);
    }
  }

  lemma {:induction false} KraftAtLeast(ch: Chain, n: nat, bits: nat)
    requires Depth(ch) <= bits
    ensures KraftOfChain(ch, n, bits) >= n
  {
    if n > 0 {
      KraftAtLeast(ch, n - 1, bits);
    }
  }
}
