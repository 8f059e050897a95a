/**
 Boundary package-merge on the node pool: chains are threaded through a fixed pool of nodes, and a
 mark-and-collect pass finds the nodes that are on no look-ahead chain when the pool runs out.

 `Valid(st)` ties the pool to the chains on values; the methods are proved to follow
 `PackageMerge.Step`, so the collector never hands out a node that a live chain still uses, and
 it always finds a free one.
 */
module BpmPools {
  import opened MergeSorts
  import opened PackageMerge

  const NULL: int := -1

  datatype BpmNode = BpmNode(weight: nat, index: nat, tail: int, inUse: bool)

  // ---------- chains in the pool ----------

  ghost predicate IsChain(mem: seq<BpmNode>, p: int, ch: Chain)
    decreases ch
  {
    match ch
    case Nil => p == NULL
    case Node(w, a, t) =>
      0 <= p < |mem| && mem[p].weight == w && mem[p].index == a && IsChain(mem, mem[p].tail, t)
  }

  ghost function NodesOf(mem: seq<BpmNode>, p: int, ch: Chain): (s: set<int>)
    requires IsChain(mem, p, ch)
    decreases ch
  {
    match ch
    case Nil => {}
    case Node(w, a, t) => {p} + NodesOf(mem, mem[p].tail, t)
  }

  ghost predicate SameLinks(m: BpmNode, n: BpmNode)
  {
    m.weight == n.weight && m.index == n.index && m.tail == n.tail
  }

  /** The pool changed at most at node q. */
  ghost predicate ChangedAt(mem: seq<BpmNode>, mem': seq<BpmNode>, q: int)
  {
    |mem'| == |mem| && forall j :: 0 <= j < |mem| && j != q ==> SameLinks(mem[j], mem'[j])
  }

  lemma {:induction false} FrameChain(mem: seq<BpmNode>, mem': seq<BpmNode>, p: int, ch: Chain, q: int)
    requires IsChain(mem, p, ch) && ChangedAt(mem, mem', q) && q !in NodesOf(mem, p, ch)
    ensures IsChain(mem', p, ch) && NodesOf(mem', p, ch) == NodesOf(mem, p, ch)
    decreases ch
  {
    match ch
    case Nil =>
    case Node(w, a, t) => FrameChain(mem, mem', mem[p].tail, t, q);
  }

  lemma {:induction false} NodesInPool(mem: seq<BpmNode>, p: int, ch: Chain)
    requires IsChain(mem, p, ch)
    ensures forall j :: j in NodesOf(mem, p, ch) ==> 0 <= j < |mem|
    ensures |NodesOf(mem, p, ch)| <= Depth(ch)
    decreases ch
  {
    match ch
    case Nil =>
    case Node(w, a, t) => NodesInPool(mem, mem[p].tail, t);
  }

  /** The look-ahead chains are in the pool. */
  ghost predicate Heap(mem: seq<BpmNode>, ch0: seq<int>, ch1: seq<int>, st: Lists)
  {
    && |ch0| == |ch1| == |st.c0| == |st.c1|
    && forall c :: 0 <= c < |ch0| ==> IsChain(mem, ch0[c], st.c0[c]) && IsChain(mem, ch1[c], st.c1[c])
  }

  /** Node q is on a look-ahead chain. */
  ghost predicate Live(mem: seq<BpmNode>, ch0: seq<int>, ch1: seq<int>, st: Lists, q: int)
    requires Heap(mem, ch0, ch1, st)
  {
    exists c :: 0 <= c < |ch0| && OnLevel(mem, ch0, ch1, st, c, q)
  }

  ghost predicate OnLevel(mem: seq<BpmNode>, ch0: seq<int>, ch1: seq<int>, st: Lists, c: nat, q: int)
    requires Heap(mem, ch0, ch1, st) && c < |ch0|
  {
    q in NodesOf(mem, ch0[c], st.c0[c]) || q in NodesOf(mem, ch1[c], st.c1[c])
  }

  lemma FrameHeap(mem: seq<BpmNode>, mem': seq<BpmNode>, ch0: seq<int>, ch1: seq<int>, st: Lists, q: int)
    requires Heap(mem, ch0, ch1, st) && ChangedAt(mem, mem', q) && !Live(mem, ch0, ch1, st, q)
    ensures Heap(mem', ch0, ch1, st)
    ensures forall j :: Live(mem', ch0, ch1, st, j) <==> Live(mem, ch0, ch1, st, j)
  {
    forall c | 0 <= c < |ch0|
      ensures IsChain(mem', ch0[c], st.c0[c]) && IsChain(mem', ch1[c], st.c1[c])
      ensures NodesOf(mem', ch0[c], st.c0[c]) == NodesOf(mem, ch0[c], st.c0[c])
      ensures NodesOf(mem', ch1[c], st.c1[c]) == NodesOf(mem, ch1[c], st.c1[c])
    {
      assert !OnLevel(mem, ch0, ch1, st, c, q);
      FrameChain(mem, mem', ch0[c], st.c0[c], q);
      FrameChain(mem, mem', ch1[c], st.c1[c], q);
    }
    assert Heap(mem', ch0, ch1, st);
    forall j
      ensures Live(mem', ch0, ch1, st, j) <==> Live(mem, ch0, ch1, st, j)
    {
      forall c | 0 <= c < |ch0|
        ensures OnLevel(mem', ch0, ch1, st, c, j) <==> OnLevel(mem, ch0, ch1, st, c, j)
      {
      }
    }
  }

  // ---------- how many nodes can be live ----------

  /** Chains of list c have at most c + 1 nodes. */
  ghost predicate Shallow(st: Lists)
  {
    && |st.c0| == |st.c1|
    && forall c :: 0 <= c < |st.c0| ==> Depth(st.c0[c]) <= c + 1 && Depth(st.c1[c]) <= c + 1
  }

  ghost function LiveSet(mem: seq<BpmNode>, ch0: seq<int>, ch1: seq<int>, st: Lists, m: nat): set<int>
    requires Heap(mem, ch0, ch1, st) && m <= |ch0|
  {
    if m == 0 then {}
    else LiveSet(mem, ch0, ch1, st, m - 1)
         + (NodesOf(mem, ch0[m - 1], st.c0[m - 1]) + NodesOf(mem, ch1[m - 1], st.c1[m - 1]))
  }

  lemma {:induction false} LiveSetSize(mem: seq<BpmNode>, ch0: seq<int>, ch1: seq<int>, st: Lists, m: nat)
    requires Heap(mem, ch0, ch1, st) && Shallow(st) && m <= |ch0|
    ensures |LiveSet(mem, ch0, ch1, st, m)| <= MostLive(m)
  {
    hide IsChain;
    if m > 0 {
      LiveSetSize(mem, ch0, ch1, st, m - 1);
      NodesInPool(mem, ch0[m - 1], st.c0[m - 1]);
      NodesInPool(mem, ch1[m - 1], st.c1[m - 1]);
      UnionSize(NodesOf(mem, ch0[m - 1], st.c0[m - 1]), NodesOf(mem, ch1[m - 1], st.c1[m - 1]));
      UnionSize(LiveSet(mem, ch0, ch1, st, m - 1),
                NodesOf(mem, ch0[m - 1], st.c0[m - 1]) + NodesOf(mem, ch1[m - 1], st.c1[m - 1]));
    }
  }

  /** Two chains of at most c + 1 nodes in every list c below m. */
  function MostLive(m: nat): nat
  {
    if m == 0 then 0 else MostLive(m - 1) + 2 * m
  }

  lemma {:induction false} MostLiveSum(m: nat)
    ensures MostLive(m) == m * (m + 1)
  {
    if m > 0 {
      MostLiveSum(m - 1);
    }
  }

  lemma UnionSize(a: set<int>, b: set<int>)
    ensures |a + b| <= |a| + |b|
  {
    assert a + b == a + (b - a);
    assert |b - a| <= |b| by { assert (b - a) + (b * a) == b; }
  }

  lemma {:induction false} LiveInSet(mem: seq<BpmNode>, ch0: seq<int>, ch1: seq<int>, st: Lists, m: nat, c: nat, q: int)
    requires Heap(mem, ch0, ch1, st) && c < m <= |ch0| && OnLevel(mem, ch0, ch1, st, c, q)
    ensures q in LiveSet(mem, ch0, ch1, st, m)
  {
    if c < m - 1 {
      LiveInSet(mem, ch0, ch1, st, m - 1, c, q);
    }
  }

  lemma {:induction false} RangeSize(s: set<int>, n: nat)
    requires forall j :: 0 <= j < n ==> j in s
    ensures |s| >= n
  {
    if n > 0 {
      RangeSize(s - {n - 1}, n - 1);
    }
  }

  /** Not every node of the pool is live. */
  lemma SomeNodeFree(mem: seq<BpmNode>, ch0: seq<int>, ch1: seq<int>, st: Lists)
    requires Heap(mem, ch0, ch1, st) && Shallow(st) && |ch0| > 0
    requires |mem| == 2 * |ch0| * (|ch0| + 1)
    ensures exists j :: 0 <= j < |mem| && !Live(mem, ch0, ch1, st, j)
  {
    var m := |ch0|;
    if forall j :: 0 <= j < |mem| ==> Live(mem, ch0, ch1, st, j) {
      var s := LiveSet(mem, ch0, ch1, st, m);
      forall j | 0 <= j < |mem|
        ensures j in s
      {
        assert Live(mem, ch0, ch1, st, j);
        var c :| 0 <= c < |ch0| && OnLevel(mem, ch0, ch1, st, c, j);
        LiveInSet(mem, ch0, ch1, st, m, c, j);
      }
      RangeSize(s, |mem|);
      LiveSetSize(mem, ch0, ch1, st, m);
      PoolIsBigger(m);
      MostLiveSum(m);
    }
  }

  lemma PoolIsBigger(m: nat)
    requires m > 0
    ensures m * (m + 1) < 2 * m * (m + 1)
  {
    assert 2 * m * (m + 1) == m * (m + 1) + m * (m + 1);
    assert m * (m + 1) >= m + 1;
  }

  /** The unused part of the free list: distinct nodes that are on no chain. */
  ghost predicate Free(mem: seq<BpmNode>, ch0: seq<int>, ch1: seq<int>, st: Lists, fl: seq<int>, lo: nat, hi: nat)
    requires Heap(mem, ch0, ch1, st)
  {
    && lo <= hi <= |fl|
    && (forall k :: lo <= k < hi ==> 0 <= fl[k] < |mem| && !Live(mem, ch0, ch1, st, fl[k]))
    && (forall k, l :: lo <= k < l < hi ==> fl[k] != fl[l])
  }

  lemma SameLinksKeep(mem: seq<BpmNode>, mem': seq<BpmNode>, ch0: seq<int>, ch1: seq<int>, st: Lists)
    requires Heap(mem, ch0, ch1, st) && ChangedAt(mem, mem', -1)
    ensures Heap(mem', ch0, ch1, st)
    ensures forall j :: Live(mem', ch0, ch1, st, j) <==> Live(mem, ch0, ch1, st, j)
  {
    hide IsChain, NodesOf;
    forall c | 0 <= c < |ch0|
      ensures !OnLevel(mem, ch0, ch1, st, c, -1)
    {
      NodesInPool(mem, ch0[c], st.c0[c]);
      NodesInPool(mem, ch1[c], st.c1[c]);
    }
    FrameHeap(mem, mem', ch0, ch1, st, -1);
  }

  function Empty(size: nat): Lists
  {
    Lists(seq(size, i => Nil), seq(size, i => Nil), seq(size, i => 0))
  }

  lemma AllFree(mem: seq<BpmNode>, ch0: seq<int>, ch1: seq<int>, freelist: seq<int>)
    requires |ch0| == |ch1| && (forall c :: 0 <= c < |ch0| ==> ch0[c] == NULL && ch1[c] == NULL)
    requires |freelist| == |mem| && forall i :: 0 <= i < |freelist| ==> freelist[i] == i
    ensures Heap(mem, ch0, ch1, Empty(|ch0|)) && Shallow(Empty(|ch0|))
    ensures Free(mem, ch0, ch1, Empty(|ch0|), freelist, 0, |mem|)
  {
  }

  class BpmLists {
    const listsize: nat
    const memsize: nat
    const memory: array<BpmNode>
    const freelist: array<int>
    /** The two look-ahead chains of each list. */
    const chains0: array<int>
    const chains1: array<int>
    var numfree: nat
    var nextfree: nat

    ghost predicate Arrays()
    {
      && listsize > 0 && memsize == 2 * listsize * (listsize + 1)
      && memory.Length == freelist.Length == memsize
      && chains0.Length == chains1.Length == listsize
      && chains0 != chains1 && freelist != chains0 && freelist != chains1
    }

    /** The look-ahead chains are those of st, and the free list is free of them. */
    ghost predicate Valid(st: Lists)
      reads this, memory, freelist, chains0, chains1
    {
      && Arrays() && Shallow(st)
      && Heap(memory[..], chains0[..], chains1[..], st)
      && Free(memory[..], chains0[..], chains1[..], st, freelist[..], nextfree, numfree)
    }

    /** Every node starts out free; the lists are empty. */
    constructor (maxbitlen: nat)
      requires maxbitlen > 0
      ensures Valid(Empty(maxbitlen)) && listsize == maxbitlen && nextfree == 0 && numfree == memsize
      ensures forall i :: 0 <= i < memsize ==> freelist[i] == i
      ensures fresh(memory) && fresh(freelist) && fresh(chains0) && fresh(chains1)
    {
      hide Heap, Free, Shallow, Empty;
      var m := 2 * maxbitlen * (maxbitlen + 1);
      listsize := maxbitlen;
      memsize := m;
      nextfree := 0;
      numfree := m;
      memory := new BpmNode[m](_ => BpmNode(0, 0, NULL, false));
      freelist := new int[m](i => i);
      chains0 := new int[maxbitlen](_ => NULL);
      chains1 := new int[maxbitlen](_ => NULL);
      new;
      AllFree(memory[..], chains0[..], chains1[..], freelist[..]);
    }

    // ---------- mark and collect ----------

    method ClearMarks()
      requires Arrays()
      modifies memory
      ensures ChangedAt(old(memory[..]), memory[..], -1)
      ensures forall j :: 0 <= j < memsize ==> !memory[j].inUse
    {
      var i := 0;
      while i != memsize
        invariant i <= memsize
        invariant ChangedAt(old(memory[..]), memory[..], -1)
        invariant forall j :: 0 <= j < i ==> !memory[j].inUse
      {
        memory[i] := memory[i].(inUse := false);
        i := i + 1;
      }
    }

    method MarkChain(head: int, ghost ch: Chain)
      requires Arrays() && IsChain(memory[..], head, ch)
      modifies memory
      ensures ChangedAt(old(memory[..]), memory[..], -1)
      ensures forall j :: 0 <= j < memsize ==>
                (memory[j].inUse <==> old(memory[j].inUse) || j in NodesOf(old(memory[..]), head, ch))
    {
      ghost var mem0 := memory[..];
      ghost var nodes := NodesOf(mem0, head, ch);
      ghost var rest := ch;
      var node := head;
      while node != NULL
        invariant ChangedAt(mem0, memory[..], -1)
        invariant IsChain(mem0, node, rest) && NodesOf(mem0, node, rest) <= nodes
        invariant forall j :: 0 <= j < memsize && memory[j].inUse ==> mem0[j].inUse || j in nodes
        invariant forall j :: 0 <= j < memsize && mem0[j].inUse ==> memory[j].inUse
        invariant forall j :: 0 <= j < memsize && j in nodes ==> memory[j].inUse || j in NodesOf(mem0, node, rest)
        decreases rest
      {
        memory[node] := memory[node].(inUse := true);
        node := memory[node].tail;
        rest := rest.tail;
      }
      assert rest == Nil;
    }

    method MarkAll(ghost st: Lists)
      requires Arrays() && Heap(memory[..], chains0[..], chains1[..], st)
      requires forall j :: 0 <= j < memsize ==> !memory[j].inUse
      modifies memory
      ensures ChangedAt(old(memory[..]), memory[..], -1)
      ensures forall j :: 0 <= j < memsize ==>
                (memory[j].inUse <==> Live(old(memory[..]), chains0[..], chains1[..], st, j))
    {
      hide IsChain, NodesOf;
      ghost var mem0, ch0, ch1 := memory[..], chains0[..], chains1[..];
      var i := 0;
      while i != listsize
        invariant i <= listsize && ChangedAt(mem0, memory[..], -1)
        invariant forall j :: 0 <= j < memsize ==>
                    (memory[j].inUse <==> LiveBelow(mem0, ch0, ch1, st, i, j))
      {
        LinksOf(mem0, memory[..], ch0[i], st.c0[i]);
        MarkChain(chains0[i], st.c0[i]);
        LinksOf(mem0, memory[..], ch1[i], st.c1[i]);
        MarkChain(chains1[i], st.c1[i]);
        LiveBelowStep(mem0, ch0, ch1, st, i);
        i := i + 1;
      }
    }

    ghost predicate LiveBelow(mem: seq<BpmNode>, ch0: seq<int>, ch1: seq<int>, st: Lists, m: nat, q: int)
      requires Heap(mem, ch0, ch1, st) && m <= |ch0|
    {
      exists c :: 0 <= c < m && OnLevel(mem, ch0, ch1, st, c, q)
    }

    lemma LiveBelowStep(mem: seq<BpmNode>, ch0: seq<int>, ch1: seq<int>, st: Lists, m: nat)
      requires Heap(mem, ch0, ch1, st) && m < |ch0|
      ensures forall q :: LiveBelow(mem, ch0, ch1, st, m + 1, q) <==>
                LiveBelow(mem, ch0, ch1, st, m, q)
                || q in NodesOf(mem, ch0[m], st.c0[m]) || q in NodesOf(mem, ch1[m], st.c1[m])
    {
      hide IsChain, NodesOf;
      var k := m + 1;
      forall q
        ensures LiveBelow(mem, ch0, ch1, st, k, q) <==>
                LiveBelow(mem, ch0, ch1, st, m, q)
                || q in NodesOf(mem, ch0[m], st.c0[m]) || q in NodesOf(mem, ch1[m], st.c1[m])
      {
        assert OnLevel(mem, ch0, ch1, st, m, q) <==>
               q in NodesOf(mem, ch0[m], st.c0[m]) || q in NodesOf(mem, ch1[m], st.c1[m]);
      }
    }

    lemma LinksOf(mem: seq<BpmNode>, mem': seq<BpmNode>, p: int, ch: Chain)
      requires IsChain(mem, p, ch) && ChangedAt(mem, mem', -1)
      ensures IsChain(mem', p, ch) && NodesOf(mem', p, ch) == NodesOf(mem, p, ch)
    {
      NodesInPool(mem, p, ch);
      FrameChain(mem, mem', p, ch, -1);
    }

    method Collect()
      requires Arrays()
      modifies this`numfree, this`nextfree, freelist
      ensures nextfree == 0 && numfree <= memsize
      ensures forall k :: 0 <= k < numfree ==> 0 <= freelist[k] < memsize && !memory[freelist[k]].inUse
      ensures forall k, l :: 0 <= k < l < numfree ==> freelist[k] < freelist[l]
      ensures numfree == 0 ==> forall j :: 0 <= j < memsize ==> memory[j].inUse
    {
      numfree := 0;
      var i := 0;
      while i != memsize
        invariant numfree <= i <= memsize
        invariant forall k :: 0 <= k < numfree ==> 0 <= freelist[k] < i && !memory[freelist[k]].inUse
        invariant forall k, l :: 0 <= k < l < numfree ==> freelist[k] < freelist[l]
        invariant numfree == 0 ==> forall j :: 0 <= j < i ==> memory[j].inUse
      {
        if !memory[i].inUse {
          freelist[numfree] := i;
          numfree := numfree + 1;
        }
        i := i + 1;
      }
      nextfree := 0;
    }

    /** Afterwards the free list is exactly ready for more, and not empty. */
    method CollectGarbage(ghost st: Lists)
      requires Valid(st)
      modifies this`numfree, this`nextfree, freelist, memory
      ensures Valid(st) && nextfree < numfree
      ensures ChangedAt(old(memory[..]), memory[..], -1)
    {
      hide IsChain, NodesOf, Live;
      ghost var mem0, ch0, ch1 := memory[..], chains0[..], chains1[..];
      ClearMarks();
      ghost var mem1 := memory[..];
      SameLinksKeep(mem0, mem1, ch0, ch1, st);
      MarkAll(st);
      ghost var mem2 := memory[..];
      SameLinksKeep(mem1, mem2, ch0, ch1, st);
      SomeNodeFree(mem2, ch0, ch1, st);
      Collect();
    }

    // ---------- creating a node ----------

    method Create(weight: nat, index: nat, tail: int, ghost tailChain: Chain, ghost st: Lists) returns (result: int)
      requires Valid(st)
      requires IsChain(memory[..], tail, tailChain)
      requires forall j :: j in NodesOf(memory[..], tail, tailChain) ==>
                 Live(memory[..], chains0[..], chains1[..], st, j)
      modifies this`numfree, this`nextfree, freelist, memory
      ensures Valid(st)
      ensures 0 <= result < memsize && !Live(memory[..], chains0[..], chains1[..], st, result)
      ensures result !in freelist[nextfree..numfree]
      ensures IsChain(memory[..], result, Node(weight, index, tailChain))
      ensures forall j :: j in NodesOf(memory[..], result, Node(weight, index, tailChain)) ==>
                j == result || Live(memory[..], chains0[..], chains1[..], st, j)
      ensures old(nextfree < numfree) ==>
                && result == freelist[old(nextfree)] && nextfree == old(nextfree) + 1 && numfree == old(numfree)
                && freelist[..] == old(freelist[..]) && ChangedAt(old(memory[..]), memory[..], result)
    {
      hide Live, Shallow, NodesOf, IsChain;
      ghost var mem0, ch0, ch1 := memory[..], chains0[..], chains1[..];
      if nextfree >= numfree {
        CollectGarbage(st);
      }
      ghost var mem1 := memory[..];
      KeepTail(mem0, mem1, ch0, ch1, st, tail, tailChain);
      result := freelist[nextfree];
      nextfree := nextfree + 1;
      memory[result] := BpmNode(weight, index, tail, memory[result].inUse);
      FrameHeap(mem1, memory[..], ch0, ch1, st, result);
      NewNode(mem1, memory[..], result, weight, index, tail, tailChain);
    }

    lemma KeepTail(mem: seq<BpmNode>, mem': seq<BpmNode>, ch0: seq<int>, ch1: seq<int>, st: Lists,
                   tail: int, tailChain: Chain)
      requires Heap(mem, ch0, ch1, st) && ChangedAt(mem, mem', -1) && IsChain(mem, tail, tailChain)
      ensures IsChain(mem', tail, tailChain) && NodesOf(mem', tail, tailChain) == NodesOf(mem, tail, tailChain)
      ensures Heap(mem', ch0, ch1, st)
      ensures forall j :: Live(mem', ch0, ch1, st, j) <==> Live(mem, ch0, ch1, st, j)
    {
      LinksOf(mem, mem', tail, tailChain);
      SameLinksKeep(mem, mem', ch0, ch1, st);
    }

    lemma NewNode(mem: seq<BpmNode>, mem': seq<BpmNode>, result: int, weight: nat, index: nat, tail: int, tailChain: Chain)
      requires IsChain(mem, tail, tailChain) && 0 <= result < |mem| && result !in NodesOf(mem, tail, tailChain)
      requires ChangedAt(mem, mem', result)
      requires mem'[result].weight == weight && mem'[result].index == index && mem'[result].tail == tail
      ensures IsChain(mem', result, Node(weight, index, tailChain))
      ensures NodesOf(mem', result, Node(weight, index, tailChain)) == {result} + NodesOf(mem, tail, tailChain)
    {
      FrameChain(mem, mem', tail, tailChain, result);
    }

    // ---------- the algorithm ----------

    /** List c moves on: its second chain becomes its first, and a new node its second. */
    method AddItem(c: nat, weight: nat, index: nat, tail: int, ghost tailChain: Chain, ghost st: Lists)
      requires Valid(st) && Shape(st) && c < listsize && Depth(tailChain) <= c
      requires IsChain(memory[..], tail, tailChain)
      requires forall j :: j in NodesOf(memory[..], tail, tailChain) ==>
                 Kept(memory[..], chains0[..], chains1[..], st, c, j)
      modifies this`numfree, this`nextfree, freelist, memory, chains0, chains1
      ensures Valid(Advance(st, c, Node(weight, index, tailChain)))
    {
      hide Live, NodesOf, IsChain, Depth;
      ghost var mem0, ch0, ch1 := memory[..], chains0[..], chains1[..];
      ghost var mid := st.(c0 := st.c0[c := st.c1[c]]);
      chains0[c] := chains1[c];
      ghost var ch0' := chains0[..];
      assert ch0' == ch0[c := ch1[c]];
      DropFirst(mem0, ch0, ch1, st, c);
      var result := Create(weight, index, tail, tailChain, mid);
      chains1[c] := result;
      ghost var item := Node(weight, index, tailChain);
      assert chains1[..] == ch1[c := result];
      PutSecond(memory[..], ch0', ch1, mid, c, result, item);
      assert mid.(c1 := mid.c1[c := item]).(asked := Advance(st, c, item).asked) == Advance(st, c, item);
      AskedIrrelevant(memory[..], ch0', chains1[..], mid.(c1 := mid.c1[c := item]), Advance(st, c, item));
      ShallowAdvance(st, c, item);
    }

    lemma ShallowAdvance(st: Lists, c: nat, item: Chain)
      requires Shape(st) && Shallow(st) && c < |st.c0| && item.Node? && Depth(item.tail) <= c
      ensures Shallow(Advance(st, c, item))
    {
    }

    /** Still on a chain after the first chain of list c is dropped. */
    ghost predicate Kept(mem: seq<BpmNode>, ch0: seq<int>, ch1: seq<int>, st: Lists, c: nat, q: int)
      requires Heap(mem, ch0, ch1, st) && c < |ch0|
    {
      var mid := st.(c0 := st.c0[c := st.c1[c]]);
      assert Heap(mem, ch0[c := ch1[c]], ch1, mid);
      Live(mem, ch0[c := ch1[c]], ch1, mid, q)
    }

    lemma DropFirst(mem: seq<BpmNode>, ch0: seq<int>, ch1: seq<int>, st: Lists, c: nat)
      requires Heap(mem, ch0, ch1, st) && c < |ch0|
      ensures var mid := st.(c0 := st.c0[c := st.c1[c]]);
              && Heap(mem, ch0[c := ch1[c]], ch1, mid)
              && forall q :: Live(mem, ch0[c := ch1[c]], ch1, mid, q) ==> Live(mem, ch0, ch1, st, q)
    {
      hide IsChain, NodesOf;
      var mid, ch0' := st.(c0 := st.c0[c := st.c1[c]]), ch0[c := ch1[c]];
      assert Heap(mem, ch0', ch1, mid);
      forall q | Live(mem, ch0', ch1, mid, q)
        ensures Live(mem, ch0, ch1, st, q)
      {
        var i :| 0 <= i < |ch0| && OnLevel(mem, ch0', ch1, mid, i, q);
        assert OnLevel(mem, ch0, ch1, st, i, q);
      }
    }

    lemma PutSecond(mem: seq<BpmNode>, ch0: seq<int>, ch1: seq<int>, st: Lists, c: nat, result: int, item: Chain)
      requires Heap(mem, ch0, ch1, st) && c < |ch0| && IsChain(mem, result, item)
      requires forall j :: j in NodesOf(mem, result, item) ==> j == result || Live(mem, ch0, ch1, st, j)
      ensures var st' := st.(c1 := st.c1[c := item]);
              && Heap(mem, ch0, ch1[c := result], st')
              && forall q :: Live(mem, ch0, ch1[c := result], st', q) ==> q == result || Live(mem, ch0, ch1, st, q)
    {
      hide IsChain, NodesOf;
      var st', ch1' := st.(c1 := st.c1[c := item]), ch1[c := result];
      assert Heap(mem, ch0, ch1', st');
      forall q | Live(mem, ch0, ch1', st', q)
        ensures q == result || Live(mem, ch0, ch1, st, q)
      {
        var i :| 0 <= i < |ch0| && OnLevel(mem, ch0, ch1', st', i, q);
        if i != c || q in NodesOf(mem, ch0[c], st.c0[c]) {
          assert OnLevel(mem, ch0, ch1, st, i, q);
        }
      }
    }

    lemma AskedIrrelevant(mem: seq<BpmNode>, ch0: seq<int>, ch1: seq<int>, st: Lists, st': Lists)
      requires Heap(mem, ch0, ch1, st) && st'.c0 == st.c0 && st'.c1 == st.c1
      ensures Heap(mem, ch0, ch1, st')
      ensures forall q :: Live(mem, ch0, ch1, st', q) <==> Live(mem, ch0, ch1, st, q)
    {
      hide IsChain, NodesOf;
      forall q
        ensures Live(mem, ch0, ch1, st', q) <==> Live(mem, ch0, ch1, st, q)
      {
        forall c | 0 <= c < |ch0|
          ensures OnLevel(mem, ch0, ch1, st', c, q) <==> OnLevel(mem, ch0, ch1, st, c, q)
        {
        }
      }
    }

    /** The second chain of list i, and its tail, stay when the first chain of list c is dropped. */
    lemma SecondKept(mem: seq<BpmNode>, ch0: seq<int>, ch1: seq<int>, st: Lists, c: nat, i: nat)
      requires Heap(mem, ch0, ch1, st) && c < |ch0| && i < |ch0| && st.c1[i].Node?
      ensures forall j :: j in NodesOf(mem, ch1[i], st.c1[i]) ==> Kept(mem, ch0, ch1, st, c, j)
      ensures 0 <= ch1[i] < |mem|
      ensures mem[ch1[i]].weight == st.c1[i].weight && mem[ch1[i]].index == st.c1[i].index
      ensures IsChain(mem, mem[ch1[i]].tail, st.c1[i].tail)
      ensures forall j :: j in NodesOf(mem, mem[ch1[i]].tail, st.c1[i].tail) ==> Kept(mem, ch0, ch1, st, c, j)
    {
      var mid, ch0' := st.(c0 := st.c0[c := st.c1[c]]), ch0[c := ch1[c]];
      assert Heap(mem, ch0', ch1, mid);
      forall j | j in NodesOf(mem, ch1[i], st.c1[i])
        ensures Kept(mem, ch0, ch1, st, c, j)
      {
        assert OnLevel(mem, ch0', ch1, mid, i, j);
      }
    }

    lemma FirstWeight(mem: seq<BpmNode>, ch0: seq<int>, ch1: seq<int>, st: Lists, i: nat)
      requires Heap(mem, ch0, ch1, st) && i < |ch0| && st.c0[i].Node?
      ensures 0 <= ch0[i] < |mem| && mem[ch0[i]].weight == st.c0[i].weight
    {
    }

    /** One step of the algorithm for list c; num tells whether it is the last one. */
    method BoundaryPM(leaves: seq<Leaf>, c: nat, num: nat, ghost st: Lists) returns (ghost st': Lists)
      requires Valid(st) && Shape(st) && c < listsize
      modifies this`numfree, this`nextfree, freelist, memory, chains0, chains1
      ensures Valid(st') && st' == Step(st, Weights(leaves), c, num + 1 >= 2 * |leaves| - 2)
      decreases c
    {
      hide Live, NodesOf, IsChain, Depth, Kept, Free;
      ghost var ws := Weights(leaves);
      SecondKept(memory[..], chains0[..], chains1[..], st, c, c);
      var lastindex := memory[chains1[c]].index;
      if c == 0 {
        if lastindex >= |leaves| {
          st' := st.(asked := st.asked[0 := st.asked[0] + 1]);
          AskedValid(st, st');
          return;
        }
        NilChain(memory[..]);
        AddItem(0, leaves[lastindex].weight, lastindex + 1, NULL, Nil, st);
        st' := Advance(st, 0, LeafItem(st, ws, 0));
      } else {
        SecondKept(memory[..], chains0[..], chains1[..], st, c, c - 1);
        FirstWeight(memory[..], chains0[..], chains1[..], st, c - 1);
        ShallowTails(st, c);
        var sum := memory[chains0[c - 1]].weight + memory[chains1[c - 1]].weight;
        if lastindex < |leaves| && sum > leaves[lastindex].weight {
          AddItem(c, leaves[lastindex].weight, lastindex + 1, memory[chains1[c]].tail, st.c1[c].tail, st);
          st' := Advance(st, c, LeafItem(st, ws, c));
          return;
        }
        AddItem(c, sum, lastindex, chains1[c - 1], st.c1[c - 1], st);
        st' := Advance(st, c, PackageItem(st, c));
        if num + 1 < 2 * |leaves| - 2 {
          st' := BoundaryPM(leaves, c - 1, num, st');
          st' := BoundaryPM(leaves, c - 1, num, st');
        }
      }
    }

    lemma AskedValid(st: Lists, st': Lists)
      requires Valid(st) && st'.c0 == st.c0 && st'.c1 == st.c1
      ensures Valid(st')
    {
      AskedIrrelevant(memory[..], chains0[..], chains1[..], st, st');
    }

    lemma NilChain(mem: seq<BpmNode>)
      ensures IsChain(mem, NULL, Nil) && NodesOf(mem, NULL, Nil) == {} && Depth(Nil) == 0
    {
    }

    lemma ShallowTails(st: Lists, c: nat)
      requires Shape(st) && Shallow(st) && 1 <= c < |st.c0|
      ensures Depth(st.c1[c].tail) <= c && Depth(st.c1[c - 1]) <= c
    {
    }
  }

  function Weights(leaves: seq<Leaf>): (ws: seq<nat>)
    ensures |ws| == |leaves|
    ensures forall i :: 0 <= i < |leaves| ==> ws[i] == leaves[i].weight
  {
    seq(|leaves|, i requires 0 <= i < |leaves| => leaves[i].weight)
  }
}
