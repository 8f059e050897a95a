/**
 Code lengths from symbol frequencies: leaves are collected, sorted and run through boundary
 package-merge. The result is always a complete prefix code within the length limit, and no such code
 takes fewer bits.
 */
module CodeLengths {
  import opened Bits
  import opened Canonical
  import opened MergeSorts
  import opened PackageMerge
  import opened BpmPools
  import B = PackageBound

  // ---------- leaves ----------

  /** The symbols that occur, in symbol order. */
  function LeavesOf(freqs: seq<nat>, n: nat): (ls: seq<Leaf>)
    requires n <= |freqs|
    ensures |ls| <= n
  {
    if n == 0 then []
    else LeavesOf(freqs, n - 1) + if freqs[n - 1] > 0 then [Leaf(freqs[n - 1], n - 1)] else []
  }

  /** Each leaf is a symbol that occurs, with its frequency, and each such symbol has one leaf. */
  ghost predicate LeafTable(freqs: seq<nat>, n: nat, ls: seq<Leaf>)
    requires n <= |freqs|
  {
    && (forall i :: 0 <= i < |ls| ==> ls[i].index < n && 0 < ls[i].weight == freqs[ls[i].index])
    && (forall i, j :: 0 <= i < j < |ls| ==> ls[i].index < ls[j].index)
    && (forall s: nat :: s < n && freqs[s] > 0 ==> Leaf(freqs[s], s) in ls)
  }

  lemma {:induction false} LeavesAreSymbols(freqs: seq<nat>, n: nat)
    requires n <= |freqs|
    ensures LeafTable(freqs, n, LeavesOf(freqs, n))
  {
    hide LeafTable;
    if n == 0 {
      NoLeaves(freqs);
    } else {
      LeavesAreSymbols(freqs, n - 1);
      NextLeaf(freqs, n - 1, LeavesOf(freqs, n - 1));
    }
  }

  lemma NoLeaves(freqs: seq<nat>)
    ensures LeafTable(freqs, 0, [])
  {
  }

  lemma NextLeaf(freqs: seq<nat>, n: nat, m: seq<Leaf>)
    requires n < |freqs| && LeafTable(freqs, n, m)
    ensures LeafTable(freqs, n + 1, m + if freqs[n] > 0 then [Leaf(freqs[n], n)] else [])
  {
    var ls := m + if freqs[n] > 0 then [Leaf(freqs[n], n)] else [];
    forall s: nat | s < n + 1 && freqs[s] > 0
      ensures Leaf(freqs[s], s) in ls
    {
      if s < n { assert Leaf(freqs[s], s) in m; } else { assert ls[|m|] == Leaf(freqs[s], s); }
    }
  }

  ghost predicate DistinctSymbols(ls: seq<Leaf>)
  {
    forall i, j :: 0 <= i < j < |ls| ==> ls[i].index != ls[j].index
  }

  lemma TwoOccurrences(s: seq<Leaf>, i: nat, j: nat)
    requires i < j < |s| && s[i] == s[j]
    ensures multiset(s)[s[i]] >= 2
  {
    assert s == s[..i] + [s[i]] + s[i + 1..j] + [s[j]] + s[j + 1..];
  }

  lemma OneOccurrence(s: seq<Leaf>, e: Leaf)
    requires DistinctSymbols(s)
    ensures multiset(s)[e] <= 1
  {
    if s == [] {
    } else {
      var n := |s| - 1;
      assert s == s[..n] + [s[n]];
      OneOccurrence(s[..n], e);
      assert s[n] !in s[..n];
      assert s[n] !in multiset(s[..n]);
    }
  }

  /** What sorting keeps of the leaves. */
  lemma SortedLeaves(freqs: seq<nat>, leaves: seq<Leaf>)
    requires multiset(leaves) == multiset(LeavesOf(freqs, |freqs|))
    ensures forall i :: 0 <= i < |leaves| ==>
              leaves[i].index < |freqs| && 0 < leaves[i].weight == freqs[leaves[i].index]
    ensures DistinctSymbols(leaves)
    ensures forall s: nat :: s < |freqs| && freqs[s] > 0 ==> HasLeaf(leaves, s)
  {
    var ls := LeavesOf(freqs, |freqs|);
    LeavesAreSymbols(freqs, |freqs|);
    assert DistinctSymbols(ls);
    forall i | 0 <= i < |leaves|
      ensures leaves[i] in ls
    {
      assert leaves[i] in multiset(leaves);
    }
    forall i, j | 0 <= i < j < |leaves|
      ensures leaves[i].index != leaves[j].index
    {
      if leaves[i].index == leaves[j].index {
        assert leaves[i] in ls && leaves[j] in ls;
        TwoOccurrences(leaves, i, j);
        OneOccurrence(ls, leaves[i]);
      }
    }
    forall s: nat | s < |freqs| && freqs[s] > 0
      ensures HasLeaf(leaves, s)
    {
      assert Leaf(freqs[s], s) in multiset(ls);
      assert Leaf(freqs[s], s) in leaves;
    }
  }

  ghost predicate HasLeaf(leaves: seq<Leaf>, s: nat)
  {
    exists i :: 0 <= i < |leaves| && leaves[i].index == s
  }

  method CollectLeaves(freqs: seq<nat>) returns (leaves: array<Leaf>)
    ensures fresh(leaves) && leaves[..] == LeavesOf(freqs, |freqs|)
  {
    var ls := [];
    var i := 0;
    while i != |freqs|
      invariant i <= |freqs| && ls == LeavesOf(freqs, i)
    {
      if freqs[i] > 0 {
        ls := ls + [Leaf(freqs[i], i)];
      }
      i := i + 1;
    }
    leaves := new Leaf[|ls|](k requires 0 <= k < |ls| => ls[k]);
    assert leaves[..] == ls;
  }

  // ---------- the Kraft sum over leaves ----------

  function LeafShare(lens: seq<nat>, e: Leaf): nat
  {
    if e.index < |lens| && lens[e.index] <= MAX_BITS then Pow2(MAX_BITS - lens[e.index]) else 0
  }

  function Shares(lens: seq<nat>): Leaf -> nat
  {
    (e: Leaf) => LeafShare(lens, e)
  }

  /** The shares of all leaves; their order does not matter. */
  function SumLeaves(ls: seq<Leaf>, f: Leaf -> nat): nat
  {
    if |ls| == 0 then 0 else SumLeaves(ls[..|ls| - 1], f) + f(ls[|ls| - 1])
  }

  lemma {:induction false} SumConcat(a: seq<Leaf>, b: seq<Leaf>, f: Leaf -> nat)
    ensures SumLeaves(a + b, f) == SumLeaves(a, f) + SumLeaves(b, f)
  {
    if |b| == 0 {
      assert a + b == a;
    } else {
      SumConcat(a, b[..|b| - 1], f);
      assert (a + b)[..|a + b| - 1] == a + b[..|b| - 1];
    }
  }

  lemma SumWithout(b: seq<Leaf>, j: nat, f: Leaf -> nat)
    requires j < |b|
    ensures SumLeaves(b, f) == SumLeaves(b[..j] + b[j + 1..], f) + f(b[j])
  {
    SumConcat(b[..j], b[j + 1..], f);
    assert b == b[..j] + [b[j]] + b[j + 1..];
    SumConcat(b[..j] + [b[j]], b[j + 1..], f);
    SumConcat(b[..j], [b[j]], f);
    assert [b[j]][..0] == [];
  }

  lemma MultisetCancel(x: multiset<Leaf>, y: multiset<Leaf>, e: Leaf)
    requires x + multiset{e} == y + multiset{e}
    ensures x == y
  {
    assert x == (x + multiset{e}) - multiset{e};
    assert y == (y + multiset{e}) - multiset{e};
  }

  /** The sum does not depend on the order. */
  lemma {:induction false} SumPermutation(a: seq<Leaf>, b: seq<Leaf>, f: Leaf -> nat)
    requires multiset(a) == multiset(b)
    ensures SumLeaves(a, f) == SumLeaves(b, f)
    decreases |a|
  {
    if |a| == 0 {
      assert |multiset(b)| == 0;
    } else {
      var n := |a| - 1;
      assert a == a[..n] + [a[n]];
      assert a[n] in multiset(b);
      var j :| 0 <= j < |b| && b[j] == a[n];
      assert b == b[..j] + [b[j]] + b[j + 1..];
      var rest := b[..j] + b[j + 1..];
      assert multiset(b) == multiset(rest) + multiset{b[j]};
      assert multiset(a) == multiset(a[..n]) + multiset{a[n]};
      MultisetCancel(multiset(a[..n]), multiset(rest), b[j]);
      SumPermutation(a[..n], rest, f);
      SumWithout(b, j, f);
    }
  }

  /** Over the symbols in order, it is the Kraft sum. */
  lemma {:induction false} KraftOverLeaves(freqs: seq<nat>, lens: seq<nat>, n: nat)
    requires |lens| == |freqs| && n <= |freqs| && ValidLengths(lens)
    requires forall s :: 0 <= s < |freqs| ==> (lens[s] > 0 <==> freqs[s] > 0)
    ensures KraftTo(lens, n) == SumLeaves(LeavesOf(freqs, n), Shares(lens))
  {
    if n > 0 {
      KraftOverLeaves(freqs, lens, n - 1);
      var m := LeavesOf(freqs, n - 1);
      if freqs[n - 1] > 0 {
        assert LeavesOf(freqs, n)[..|m|] == m;
      } else {
        assert LeavesOf(freqs, n) == m;
      }
    }
  }

  /** Over the sorted leaves, it is the Kraft sum of the chain. */
  lemma {:induction false} KraftOverChain(leaves: seq<Leaf>, lens: seq<nat>, ch: Chain, n: nat)
    requires n <= |leaves| && Depth(ch) <= MAX_BITS
    requires forall i :: 0 <= i < |leaves| ==>
               leaves[i].index < |lens| && lens[leaves[i].index] == CodeLength(ch, i)
    ensures SumLeaves(leaves[..n], Shares(lens)) == KraftOfChain(ch, n, MAX_BITS)
  {
    hide Pow2, CodeLength;
    if n > 0 {
      KraftOverChain(leaves, lens, ch, n - 1);
      assert leaves[..n][..n - 1] == leaves[..n - 1] && leaves[..n][n - 1] == leaves[n - 1];
      assert CodeLength(ch, n - 1) <= MAX_BITS;
    }
  }

  // ---------- reading the lengths off the final chain ----------

  /** Adds one to the length of each of the first count leaves. */
  method IncrementLengths(lengths: array<nat>, leaves: seq<Leaf>, count: nat)
    requires count <= |leaves| && DistinctSymbols(leaves)
    requires forall i :: 0 <= i < |leaves| ==> leaves[i].index < lengths.Length
    modifies lengths
    ensures forall i :: 0 <= i < |leaves| ==>
              lengths[leaves[i].index] == old(lengths[leaves[i].index]) + if i < count then 1 else 0
    ensures forall s: nat :: s < lengths.Length && !HasLeaf(leaves, s) ==> lengths[s] == old(lengths[s])
  {
    var i := 0;
    while i != count
      invariant i <= count
      invariant forall k :: 0 <= k < |leaves| ==>
                  lengths[leaves[k].index] == old(lengths[leaves[k].index]) + if k < i then 1 else 0
      invariant forall s: nat :: s < lengths.Length && !HasLeaf(leaves, s) ==> lengths[s] == old(lengths[s])
    {
      lengths[leaves[i].index] := lengths[leaves[i].index] + 1;
      i := i + 1;
    }
  }

  /** The tail of a chain counts no more leaves than its head. */
  lemma ItemsTail(ch: Chain, k: nat, n: nat)
    requires ch.Node? && Items(ch, k) && ch.index <= n
    ensures Items(ch.tail, 2 * (k - ch.index)) && (ch.tail.Node? ==> ch.tail.index <= n)
  {
  }

  method ReadLengths(lists: BpmLists, head: int, ghost ch: Chain, ghost k: nat, leaves: seq<Leaf>, numcodes: nat)
    returns (lengths: seq<nat>)
    requires IsChain(lists.memory[..], head, ch) && Items(ch, k) && (ch.Node? ==> ch.index <= |leaves|)
    requires DistinctSymbols(leaves) && forall i :: 0 <= i < |leaves| ==> leaves[i].index < numcodes
    ensures |lengths| == numcodes
    ensures forall i :: 0 <= i < |leaves| ==> lengths[leaves[i].index] == CodeLength(ch, i)
    ensures forall s: nat :: s < numcodes && !HasLeaf(leaves, s) ==> lengths[s] == 0
  {
    hide Items, HasLeaf, DistinctSymbols;
    var a := new nat[numcodes](_ => 0);
    var node := head;
    ghost var rest := ch;
    ghost var items: nat := k;
    while node != NULL
      invariant IsChain(lists.memory[..], node, rest)
      invariant Items(rest, items) && (rest.Node? ==> rest.index <= |leaves|)
      invariant forall i :: 0 <= i < |leaves| ==>
                  a[leaves[i].index] == CodeLength(ch, i) - CodeLength(rest, i)
      invariant forall s: nat :: s < numcodes && !HasLeaf(leaves, s) ==> a[s] == 0
      decreases rest
    {
      ItemsTail(rest, items, |leaves|);
      IncrementLengths(a, leaves, lists.memory[node].index);
      node := lists.memory[node].tail;
      items := 2 * (items - rest.index);
      rest := rest.tail;
    }
    lengths := a[..];
  }

  // ---------- running the algorithm ----------

  /** The two lightest leaves become the first two nodes of the pool and the chains of every list. */
  method InitLists(lists: BpmLists, leaves: seq<Leaf>)
    requires |leaves| >= 2 && lists.Valid(Empty(lists.listsize)) && lists.nextfree == 0
    requires lists.numfree == lists.memsize
    requires forall i :: 0 <= i < lists.memsize ==> lists.freelist[i] == i
    modifies lists, lists.memory, lists.freelist, lists.chains0, lists.chains1
    ensures lists.Valid(Initial(Weights(leaves), lists.listsize))
  {
    hide Live, IsChain, NodesOf, Depth, Free;
    ghost var none := Empty(lists.listsize);
    PoolHasTwo(lists.listsize);
    lists.NilChain(lists.memory[..]);
    var first := lists.Create(leaves[0].weight, 1, NULL, Nil, none);
    ghost var mem1 := lists.memory[..];
    lists.NilChain(lists.memory[..]);
    var second := lists.Create(leaves[1].weight, 2, NULL, Nil, none);
    ghost var mem2 := lists.memory[..];
    var i := 0;
    while i != lists.listsize
      invariant i <= lists.listsize
      invariant lists.memory[..] == mem2
      invariant forall c :: 0 <= c < i ==> lists.chains0[c] == first && lists.chains1[c] == second
      modifies lists.chains0, lists.chains1
    {
      lists.chains0[i] := first;
      lists.chains1[i] := second;
      i := i + 1;
    }
    FirstNodes(mem1, mem2, leaves, lists.listsize, lists.chains0[..], lists.chains1[..], lists.freelist[..]);
  }

  lemma PoolHasTwo(m: nat)
    requires m > 0
    ensures 2 * m * (m + 1) >= 4
  {
    assert m * (m + 1) >= 2;
  }

  lemma FirstNodes(mem1: seq<BpmNode>, mem2: seq<BpmNode>, leaves: seq<Leaf>, size: nat,
                   ch0: seq<int>, ch1: seq<int>, fl: seq<int>)
    requires |leaves| >= 2 && size > 0 && |ch0| == |ch1| == size && |fl| == |mem2| >= 2
    requires IsChain(mem1, 0, Node(leaves[0].weight, 1, Nil)) && ChangedAt(mem1, mem2, 1)
    requires IsChain(mem2, 1, Node(leaves[1].weight, 2, Nil))
    requires forall c :: 0 <= c < size ==> ch0[c] == 0 && ch1[c] == 1
    requires forall i :: 0 <= i < |fl| ==> fl[i] == i
    ensures var st := Initial(Weights(leaves), size);
            && Shallow(st) && Heap(mem2, ch0, ch1, st) && Free(mem2, ch0, ch1, st, fl, 2, |fl|)
  {
    var st := Initial(Weights(leaves), size);
    var n0, n1 := Node(leaves[0].weight, 1, Nil), Node(leaves[1].weight, 2, Nil);
    assert Depth(Nil) == 0;
    OneNode(mem1, 0, leaves[0].weight, 1);
    OneNode(mem2, 1, leaves[1].weight, 2);
    FrameChain(mem1, mem2, 0, n0, 1);
    forall c | 0 <= c < size
      ensures IsChain(mem2, ch0[c], st.c0[c]) && IsChain(mem2, ch1[c], st.c1[c])
      ensures forall q :: OnLevel'(mem2, ch0[c], ch1[c], n0, n1, q) ==> q == 0 || q == 1
    {
    }
    forall q | Live(mem2, ch0, ch1, st, q)
      ensures q == 0 || q == 1
    {
      var c :| 0 <= c < size && OnLevel(mem2, ch0, ch1, st, c, q);
    }
  }

  ghost predicate OnLevel'(mem: seq<BpmNode>, p0: int, p1: int, n0: Chain, n1: Chain, q: int)
  {
    IsChain(mem, p0, n0) && IsChain(mem, p1, n1) && (q in NodesOf(mem, p0, n0) || q in NodesOf(mem, p1, n1))
  }

  lemma OneNode(mem: seq<BpmNode>, p: int, w: nat, a: nat)
    requires IsChain(mem, p, Node(w, a, Nil))
    ensures NodesOf(mem, p, Node(w, a, Nil)) == {p}
  {
    assert NodesOf(mem, mem[p].tail, Nil) == {};
  }

  lemma AscendingWeights(leaves: seq<Leaf>)
    requires Sorted(leaves)
    ensures Ascending(Weights(leaves))
  {
  }

  /** Runs boundary package-merge until the last list has the items of all leaves. */
  method RunBoundaryPM(lists: BpmLists, leaves: seq<Leaf>) returns (ghost st: Lists)
    requires |leaves| >= 2 && lists.Valid(Initial(Weights(leaves), lists.listsize))
    modifies lists, lists.memory, lists.freelist, lists.chains0, lists.chains1
    ensures lists.Valid(st) && st == RunTo(Weights(leaves), lists.listsize, 2 * |leaves| - 2)
  {
    hide Live, IsChain, NodesOf, Depth, Free, Step;
    ghost var ws, size := Weights(leaves), lists.listsize;
    st := Initial(ws, size);
    var i := 2;
    while i != 2 * |leaves| - 2
      invariant 2 <= i <= 2 * |leaves| - 2
      invariant lists.Valid(st) && st == RunTo(ws, size, i)
    {
      st := lists.BoundaryPM(leaves, lists.listsize - 1, i, st);
      i := i + 1;
    }
  }

  /** The code lengths of two or more leaves. */
  method PackageMergeLengths(leaves: seq<Leaf>, numcodes: nat, maxbitlen: nat) returns (lengths: seq<nat>, ghost ch: Chain)
    requires |leaves| >= 2 && Sorted(leaves) && leaves[0].weight > 0 && DistinctSymbols(leaves)
    requires 0 < maxbitlen <= MAX_BITS && |leaves| <= Pow2(maxbitlen)
    requires forall i :: 0 <= i < |leaves| ==> leaves[i].index < numcodes
    ensures |lengths| == numcodes && ch == FinalChain(Weights(leaves), maxbitlen)
    ensures forall i :: 0 <= i < |leaves| ==> lengths[leaves[i].index] == CodeLength(ch, i)
    ensures forall s: nat :: s < numcodes && !HasLeaf(leaves, s) ==> lengths[s] == 0
  {
    hide Live, IsChain, NodesOf, Depth, Free, Step, Items, Sorted, DistinctSymbols, CodeLength, HasLeaf, RunTo;
    ghost var ws := Weights(leaves);
    var lists := new BpmLists(maxbitlen);
    InitLists(lists, leaves);
    ghost var st := RunBoundaryPM(lists, leaves);
    ch := st.c1[maxbitlen - 1];
    AscendingWeights(leaves);
    FinalItems(ws, maxbitlen);
    lengths := ReadLengths(lists, lists.chains1[maxbitlen - 1], ch, 2 * |leaves| - 2, leaves, numcodes);
  }

  /** What code lengths for these frequencies must be: a complete prefix code within the limit,
      in which every symbol that occurs has a code. */
  ghost predicate LengthsFor(lengths: seq<nat>, freqs: seq<nat>, maxbitlen: nat)
  {
    && |lengths| == |freqs| && maxbitlen <= MAX_BITS
    && (forall i :: 0 <= i < |lengths| ==> lengths[i] <= maxbitlen)
    && ValidLengths(lengths) && Kraft(lengths) == FULL
    && forall i :: 0 <= i < |freqs| && freqs[i] > 0 ==> lengths[i] > 0
  }

  /** Exactly the symbols that occur have a code. */
  ghost predicate OnlyOccurring(lengths: seq<nat>, freqs: seq<nat>)
    requires |lengths| == |freqs|
  {
    forall i :: 0 <= i < |freqs| ==> (lengths[i] > 0 <==> freqs[i] > 0)
  }

  lemma PackageMergeCorrect(freqs: seq<nat>, leaves: seq<Leaf>, lengths: seq<nat>, ch: Chain, maxbitlen: nat)
    requires |leaves| >= 2 && Sorted(leaves) && multiset(leaves) == multiset(LeavesOf(freqs, |freqs|))
    requires 0 < maxbitlen <= MAX_BITS && |leaves| <= Pow2(maxbitlen)
    requires |lengths| == |freqs| && ch == FinalChain(Weights(leaves), maxbitlen)
    requires forall i :: 0 <= i < |leaves| ==> leaves[i].index < |freqs| && lengths[leaves[i].index] == CodeLength(ch, i)
    requires forall s: nat :: s < |freqs| && !HasLeaf(leaves, s) ==> lengths[s] == 0
    ensures LengthsFor(lengths, freqs, maxbitlen) && OnlyOccurring(lengths, freqs)
  {
    hide FinalChain, CodeLength, Depth, Sorted, KraftTo, KraftOfChain, SumLeaves, LeavesOf, Pow2;
    SortedLeaves(freqs, leaves);
    AscendingWeights(leaves);
    FinalKraft(Weights(leaves), maxbitlen, MAX_BITS);
    LengthsWithin(freqs, leaves, lengths, ch, maxbitlen);
    FullIsPow2();
    KraftOverLeaves(freqs, lengths, |freqs|);
    SumPermutation(leaves, LeavesOf(freqs, |freqs|), Shares(lengths));
    KraftOverChain(leaves, lengths, ch, |leaves|);
    assert leaves[..|leaves|] == leaves;
  }

  lemma LengthsWithin(freqs: seq<nat>, leaves: seq<Leaf>, lengths: seq<nat>, ch: Chain, maxbitlen: nat)
    requires |lengths| == |freqs| && Depth(ch) <= maxbitlen <= MAX_BITS
    requires forall i :: 0 <= i < |leaves| ==> leaves[i].index < |freqs| && lengths[leaves[i].index] == CodeLength(ch, i) > 0
    requires forall i :: 0 <= i < |leaves| ==> freqs[leaves[i].index] > 0
    requires forall s: nat :: s < |freqs| && !HasLeaf(leaves, s) ==> lengths[s] == 0
    requires forall s: nat :: s < |freqs| && freqs[s] > 0 ==> HasLeaf(leaves, s)
    ensures forall i :: 0 <= i < |lengths| ==> lengths[i] <= maxbitlen
    ensures ValidLengths(lengths) && OnlyOccurring(lengths, freqs)
  {
    forall s: nat | s < |freqs|
      ensures lengths[s] <= maxbitlen && (lengths[s] > 0 <==> freqs[s] > 0)
    {
      if HasLeaf(leaves, s) {
        var i :| 0 <= i < |leaves| && leaves[i].index == s;
        assert CodeLength(ch, i) <= Depth(ch);
      }
    }
  }

  // ---------- the fewest bits ----------

  /** What the first n symbols take when each is written as often as it occurs. */
  function TotalBits(freqs: seq<nat>, lens: seq<nat>, n: nat): nat
    requires n <= |freqs| == |lens|
  {
    if n == 0 then 0 else TotalBits(freqs, lens, n - 1) + freqs[n - 1] * lens[n - 1]
  }

  /** Lengths of a prefix code within the limit that has a code for every symbol that occurs. */
  ghost predicate Admissible(lens: seq<nat>, freqs: seq<nat>, maxbitlen: nat)
  {
    && |lens| == |freqs| && maxbitlen <= MAX_BITS && (forall i :: 0 <= i < |lens| ==> lens[i] <= maxbitlen)
    && ValidLengths(lens) && Kraft(lens) <= FULL
    && forall i :: 0 <= i < |freqs| && freqs[i] > 0 ==> lens[i] > 0
  }

  /** No admissible code takes fewer bits. */
  ghost predicate Optimal(lengths: seq<nat>, freqs: seq<nat>, maxbitlen: nat)
  {
    |lengths| == |freqs| &&
    forall lens: seq<nat> :: Admissible(lens, freqs, maxbitlen) ==>
      |lens| == |freqs| && TotalBits(freqs, lengths, |freqs|) <= TotalBits(freqs, lens, |freqs|)
  }

  function BitsOf(lens: seq<nat>): Leaf -> nat
  {
    (e: Leaf) => e.weight * if e.index < |lens| then lens[e.index] else 0
  }

  lemma {:induction false} BitsOverLeaves(freqs: seq<nat>, lens: seq<nat>, n: nat)
    requires n <= |freqs| == |lens|
    ensures TotalBits(freqs, lens, n) == SumLeaves(LeavesOf(freqs, n), BitsOf(lens))
  {
    if n > 0 {
      BitsOverLeaves(freqs, lens, n - 1);
      var m := LeavesOf(freqs, n - 1);
      if freqs[n - 1] > 0 {
        assert LeavesOf(freqs, n)[..|m|] == m;
      } else {
        assert LeavesOf(freqs, n) == m;
      }
    }
  }

  /** The shares of the symbols that occur are not more than those of all. */
  lemma {:induction false} SharesWithinKraft(freqs: seq<nat>, lens: seq<nat>, n: nat)
    requires |lens| == |freqs| && n <= |freqs| && ValidLengths(lens)
    requires forall i :: 0 <= i < |freqs| && freqs[i] > 0 ==> lens[i] > 0
    ensures SumLeaves(LeavesOf(freqs, n), Shares(lens)) <= KraftTo(lens, n)
  {
    if n > 0 {
      SharesWithinKraft(freqs, lens, n - 1);
      var m := LeavesOf(freqs, n - 1);
      if freqs[n - 1] > 0 {
        assert LeavesOf(freqs, n)[..|m|] == m;
      } else {
        assert LeavesOf(freqs, n) == m;
      }
    }
  }

  /** The lengths of the leaves, in their order. */
  function LeafLengths(leaves: seq<Leaf>, lens: seq<nat>): (ls: seq<nat>)
    requires forall i :: 0 <= i < |leaves| ==> leaves[i].index < |lens|
    ensures |ls| == |leaves| && forall i :: 0 <= i < |ls| ==> ls[i] == lens[leaves[i].index]
  {
    seq(|leaves|, i requires 0 <= i < |leaves| => lens[leaves[i].index])
  }

  lemma {:induction false} BitsInOrder(leaves: seq<Leaf>, lens: seq<nat>, n: nat)
    requires n <= |leaves| && forall i :: 0 <= i < |leaves| ==> leaves[i].index < |lens|
    ensures SumLeaves(leaves[..n], BitsOf(lens)) == B.Weighted(Weights(leaves), LeafLengths(leaves, lens), n)
  {
    if n > 0 {
      BitsInOrder(leaves, lens, n - 1);
      assert leaves[..n][..n - 1] == leaves[..n - 1];
    }
  }

  lemma {:induction false} SharesInOrder(leaves: seq<Leaf>, lens: seq<nat>, n: nat)
    requires n <= |leaves| && forall i :: 0 <= i < |leaves| ==> leaves[i].index < |lens|
    requires forall i :: 0 <= i < |lens| ==> lens[i] <= MAX_BITS
    ensures SumLeaves(leaves[..n], Shares(lens)) == B.KraftSum(LeafLengths(leaves, lens), MAX_BITS, n)
  {
    if n > 0 {
      SharesInOrder(leaves, lens, n - 1);
      assert leaves[..n][..n - 1] == leaves[..n - 1];
    }
  }

  /** All bits, by symbol or by leaf. */
  lemma BitsOfLeaves(freqs: seq<nat>, leaves: seq<Leaf>, lens: seq<nat>)
    requires multiset(leaves) == multiset(LeavesOf(freqs, |freqs|)) && |lens| == |freqs|
    ensures forall i :: 0 <= i < |leaves| ==> leaves[i].index < |lens|
    ensures TotalBits(freqs, lens, |freqs|) == B.Weighted(Weights(leaves), LeafLengths(leaves, lens), |leaves|)
  {
    hide LeavesOf, SumLeaves, TotalBits, B.Weighted;
    SortedLeaves(freqs, leaves);
    BitsOverLeaves(freqs, lens, |freqs|);
    SumPermutation(leaves, LeavesOf(freqs, |freqs|), BitsOf(lens));
    BitsInOrder(leaves, lens, |leaves|);
    assert leaves[..|leaves|] == leaves;
  }

  lemma KraftOfLeaves(freqs: seq<nat>, leaves: seq<Leaf>, lens: seq<nat>, maxbitlen: nat)
    requires multiset(leaves) == multiset(LeavesOf(freqs, |freqs|)) && Admissible(lens, freqs, maxbitlen)
    ensures forall i :: 0 <= i < |leaves| ==> leaves[i].index < |lens|
    ensures var ls := LeafLengths(leaves, lens);
            && (forall i :: 0 <= i < |ls| ==> 0 < ls[i] <= maxbitlen <= MAX_BITS)
            && B.KraftSum(ls, MAX_BITS, |ls|) <= Pow2(MAX_BITS)
  {
    hide LeavesOf, SumLeaves, KraftTo, Pow2, B.KraftSum;
    FullIsPow2();
    SortedLeaves(freqs, leaves);
    SharesWithinKraft(freqs, lens, |freqs|);
    SumPermutation(leaves, LeavesOf(freqs, |freqs|), Shares(lens));
    SharesInOrder(leaves, lens, |leaves|);
    assert leaves[..|leaves|] == leaves;
  }

  /** The lengths that boundary package-merge gives take the fewest bits. */
  lemma PackageMergeOptimal(freqs: seq<nat>, leaves: seq<Leaf>, lengths: seq<nat>, ch: Chain, maxbitlen: nat)
    requires |leaves| >= 2 && Sorted(leaves) && multiset(leaves) == multiset(LeavesOf(freqs, |freqs|))
    requires 0 < maxbitlen <= MAX_BITS && |leaves| <= Pow2(maxbitlen)
    requires |lengths| == |freqs| && ch == FinalChain(Weights(leaves), maxbitlen)
    requires forall i :: 0 <= i < |leaves| ==> leaves[i].index < |freqs| && lengths[leaves[i].index] == CodeLength(ch, i)
    ensures Optimal(lengths, freqs, maxbitlen)
  {
    hide FinalChain, CodeLength, Sorted, LeavesOf, Pow2, TotalBits, Admissible, B.Weighted, B.KraftSum;
    SortedLeaves(freqs, leaves);
    AscendingWeights(leaves);
    var ws := Weights(leaves);
    BitsOfLeaves(freqs, leaves, lengths);
    assert LeafLengths(leaves, lengths) == B.ChainLengths(ch, |ws|);
    forall lens: seq<nat> | Admissible(lens, freqs, maxbitlen)
      ensures |lens| == |freqs| && TotalBits(freqs, lengths, |freqs|) <= TotalBits(freqs, lens, |freqs|)
    {
      AdmissibleSize(lens, freqs, maxbitlen);
      BitsOfLeaves(freqs, leaves, lens);
      KraftOfLeaves(freqs, leaves, lens, maxbitlen);
      B.Lightest(ws, maxbitlen, MAX_BITS, LeafLengths(leaves, lens));
    }
  }

  lemma AdmissibleSize(lens: seq<nat>, freqs: seq<nat>, maxbitlen: nat)
    requires Admissible(lens, freqs, maxbitlen)
    ensures |lens| == |freqs|
  {
  }

  /** One bit for the only symbol is the least there can be. */
  lemma OneSymbolOptimal(freqs: seq<nat>, lengths: seq<nat>, maxbitlen: nat)
    requires |lengths| == |freqs| && (forall i :: 0 <= i < |freqs| && freqs[i] > 0 ==> lengths[i] == 1)
    ensures Optimal(lengths, freqs, maxbitlen)
  {
    hide ValidLengths, Kraft;
    forall lens: seq<nat> | Admissible(lens, freqs, maxbitlen)
      ensures |lens| == |freqs| && TotalBits(freqs, lengths, |freqs|) <= TotalBits(freqs, lens, |freqs|)
    {
      OneBitLeast(freqs, lengths, lens, |freqs|);
    }
  }

  lemma {:induction false} OneBitLeast(freqs: seq<nat>, lengths: seq<nat>, lens: seq<nat>, n: nat)
    requires n <= |freqs| == |lengths| == |lens|
    requires forall i :: 0 <= i < |freqs| && freqs[i] > 0 ==> lengths[i] == 1 && lens[i] > 0
    ensures TotalBits(freqs, lengths, n) <= TotalBits(freqs, lens, n)
  {
    if n > 0 {
      OneBitLeast(freqs, lengths, lens, n - 1);
      if freqs[n - 1] > 0 {
        var l: nat := lens[n - 1] - 1;
        assert freqs[n - 1] * (l + 1) == freqs[n - 1] * l + freqs[n - 1];
      }
    }
  }

  // ---------- one or no symbol ----------

  /** Two codes of one bit each. */
  lemma TwoOneBitCodes(lengths: seq<nat>, a: nat, b: nat)
    requires a < b < |lengths| && lengths[a] == 1 && lengths[b] == 1
    requires forall i :: 0 <= i < |lengths| && i != a && i != b ==> lengths[i] == 0
    ensures ValidLengths(lengths) && Kraft(lengths) == FULL
  {
    KraftUpTo(lengths, a, b, |lengths|);
  }

  lemma {:induction false} KraftUpTo(lengths: seq<nat>, a: nat, b: nat, n: nat)
    requires a < b < |lengths| && lengths[a] == 1 && lengths[b] == 1 && n <= |lengths|
    requires forall i :: 0 <= i < |lengths| && i != a && i != b ==> lengths[i] == 0
    ensures ValidLengths(lengths)
    ensures KraftTo(lengths, n) == (if a < n then FULL / 2 else 0) + (if b < n then FULL / 2 else 0)
  {
    FullIsPow2();
    if n > 0 {
      KraftUpTo(lengths, a, b, n - 1);
      assert Pow2(14) * 2 == Pow2(15);
    }
  }

  lemma NoLeafNoSymbol(freqs: seq<nat>)
    requires |LeavesOf(freqs, |freqs|)| <= 1
    ensures forall i :: 0 <= i < |freqs| && freqs[i] > 0 ==>
              |LeavesOf(freqs, |freqs|)| == 1 && LeavesOf(freqs, |freqs|)[0].index == i
    ensures |LeavesOf(freqs, |freqs|)| == 1 ==> LeavesOf(freqs, |freqs|)[0].index < |freqs|
  {
    LeavesAreSymbols(freqs, |freqs|);
    forall i: nat | i < |freqs| && freqs[i] > 0
      ensures |LeavesOf(freqs, |freqs|)| == 1 && LeavesOf(freqs, |freqs|)[0].index == i
    {
      assert Leaf(freqs[i], i) in LeavesOf(freqs, |freqs|);
    }
  }

  // ---------- the whole function ----------

  /** Code lengths for the frequencies. A single code is refused by the callers, which always ask
      for two or more: the source writes two lengths even when only one symbol occurs. */
  method HuffmanCodeLengths(freqs: seq<nat>, maxbitlen: nat) returns (error: nat, lengths: seq<nat>)
    requires |freqs| != 1 && 0 < maxbitlen <= MAX_BITS
    ensures error == if |freqs| == 0 || Pow2(maxbitlen) < |freqs| then 80 else 0
    ensures error == 0 ==> LengthsFor(lengths, freqs, maxbitlen)
    ensures error == 0 && |LeavesOf(freqs, |freqs|)| >= 2 ==> OnlyOccurring(lengths, freqs)
    ensures error == 0 ==> Optimal(lengths, freqs, maxbitlen)
  {
    hide LengthsFor, OnlyOccurring, LeavesOf, Sorted, HasLeaf, CodeLength, Optimal;
    lengths := [];
    if |freqs| == 0 || Pow2(maxbitlen) < |freqs| {
      return 80, lengths;
    }
    error := 0;
    var leaves := CollectLeaves(freqs);
    if leaves.Length <= 1 {
      lengths := FewLengths(freqs, leaves[..], maxbitlen);
    } else {
      SortLeaves(leaves, leaves.Length);
      SortedLeaves(freqs, leaves[..]);
      ghost var ch;
      lengths, ch := PackageMergeLengths(leaves[..], |freqs|, maxbitlen);
      PackageMergeCorrect(freqs, leaves[..], lengths, ch, maxbitlen);
      PackageMergeOptimal(freqs, leaves[..], lengths, ch, maxbitlen);
    }
  }

  /** With no or one symbol, two symbols get one bit each. */
  method FewLengths(freqs: seq<nat>, leaves: seq<Leaf>, maxbitlen: nat) returns (lengths: seq<nat>)
    requires |freqs| >= 2 && 0 < maxbitlen <= MAX_BITS
    requires leaves == LeavesOf(freqs, |freqs|) && |leaves| <= 1
    ensures LengthsFor(lengths, freqs, maxbitlen) && Optimal(lengths, freqs, maxbitlen)
  {
    hide LeavesOf, KraftTo, Optimal;
    NoLeafNoSymbol(freqs);
    lengths := seq(|freqs|, i => 0);
    if |leaves| == 0 {
      lengths := lengths[0 := 1][1 := 1];
      TwoOneBitCodes(lengths, 0, 1);
    } else {
      var s := leaves[0].index;
      lengths := lengths[s := 1];
      lengths := lengths[(if s == 0 then 1 else 0) := 1];
      if s == 0 { TwoOneBitCodes(lengths, 0, 1); } else { TwoOneBitCodes(lengths, 0, s); }
    }
    OneSymbolOptimal(freqs, lengths, maxbitlen);
  }
}
