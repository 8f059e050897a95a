/**
 Reading a file from a FAT16 volume: its clusters form a chain through the table.
 */
module Fat16 {
  import opened Bits

  const FAT_END: nat := 0xFFFF

  /** The table has an entry for every 16-bit cluster number; clusters have equal size. */
  datatype Volume = Volume(fat: seq<nat>, clusters: seq<seq<byte>>, clusterSize: nat)

  ghost predicate VolumeOk(v: Volume)
  {
    && v.clusterSize > 0 && |v.fat| == 65536 && (forall c :: 0 <= c < |v.fat| ==> v.fat[c] <= FAT_END)
    && |v.clusters| == 65536 && forall c :: 0 <= c < |v.clusters| ==> |v.clusters[c]| == v.clusterSize
  }

  /** Clusters that follow one another in the table; only the first may have the number of the end mark. */
  ghost predicate IsChain(v: Volume, chain: seq<nat>)
  {
    && (forall i :: 0 <= i < |chain| ==> chain[i] <= FAT_END && (i > 0 ==> chain[i] < FAT_END))
    && forall i :: 0 <= i < |chain| - 1 ==> chain[i] < |v.fat| && chain[i + 1] == v.fat[chain[i]]
  }

  function Content(v: Volume, chain: seq<nat>): (s: seq<byte>)
    requires forall i :: 0 <= i < |chain| ==> chain[i] < |v.clusters|
  {
    if |chain| == 0 then [] else Content(v, chain[..|chain| - 1]) + v.clusters[chain[|chain| - 1]]
  }

  /** The clusters of a chain that are read: those numbered below the first one are skipped. */
  function Skipping(first: nat, chain: seq<nat>): seq<nat>
  {
    if |chain| == 0 then []
    else
      var before := Skipping(first, chain[..|chain| - 1]);
      if chain[|chain| - 1] < first then before else before + [chain[|chain| - 1]]
  }

  lemma {:induction false} SkippingPrefix(first: nat, chain: seq<nat>, n: nat)
    requires n <= |chain|
    ensures |Skipping(first, chain[..n])| <= |Skipping(first, chain)|
    ensures Skipping(first, chain)[..|Skipping(first, chain[..n])|] == Skipping(first, chain[..n])
  {
    if n == |chain| {
      assert chain[..n] == chain;
    } else {
      SkippingPrefix(first, chain[..|chain| - 1], n);
      assert chain[..|chain| - 1][..n] == chain[..n];
    }
  }

  /** Nothing is skipped exactly if no cluster of the chain is numbered below the first. */
  lemma {:induction false} NothingSkipped(first: nat, chain: seq<nat>)
    ensures |Skipping(first, chain)| <= |chain|
    ensures Skipping(first, chain) == chain <==> forall i :: 0 <= i < |chain| ==> chain[i] >= first
  {
    if |chain| > 0 {
      var front, c := chain[..|chain| - 1], chain[|chain| - 1];
      NothingSkipped(first, front);
      assert chain == front + [c];
      if c >= first && Skipping(first, chain) == chain {
        assert Skipping(first, front) == front;
      }
    }
  }

  lemma {:induction false} SkippedInside(v: Volume, first: nat, chain: seq<nat>, i: nat)
    requires (forall k :: 0 <= k < |chain| ==> chain[k] < |v.clusters|) && i < |Skipping(first, chain)|
    ensures Skipping(first, chain)[i] < |v.clusters|
  {
    if |chain| > 0 {
      var front := chain[..|chain| - 1];
      if i < |Skipping(first, front)| {
        SkippedInside(v, first, front, i);
      }
    }
  }

  /** The loop ends within this chain: the chain ends, or more than enough of it is read. */
  ghost predicate Ends(v: Volume, first: nat, chain: seq<nat>, size: nat)
  {
    && IsChain(v, chain) && |chain| > 0 && chain[0] == first && chain[|chain| - 1] < |v.fat|
    && (v.fat[chain[|chain| - 1]] == FAT_END || Times(|Skipping(first, chain)|, v.clusterSize) > size)
  }

  function Times(n: nat, k: nat): nat
  {
    if n == 0 then 0 else Times(n - 1, k) + k
  }

  lemma {:induction false} ContentSize(v: Volume, chain: seq<nat>)
    requires VolumeOk(v) && forall i :: 0 <= i < |chain| ==> chain[i] < |v.clusters|
    ensures |Content(v, chain)| == Times(|chain|, v.clusterSize)
  {
    if |chain| > 0 {
      ContentSize(v, chain[..|chain| - 1]);
    }
  }

  lemma {:induction false} TimesMono(m: nat, n: nat, k: nat)
    requires m <= n
    ensures Times(m, k) <= Times(n, k)
  {
    if m < n {
      TimesMono(m, n - 1, k);
    }
  }

  lemma {:induction false} ContentPrefix(v: Volume, chain: seq<nat>, n: nat)
    requires VolumeOk(v) && n <= |chain| && forall i :: 0 <= i < |chain| ==> chain[i] < |v.clusters|
    ensures |Content(v, chain[..n])| <= |Content(v, chain)| && Content(v, chain)[..|Content(v, chain[..n])|] == Content(v, chain[..n])
  {
    if n == |chain| {
      assert chain[..n] == chain;
    } else {
      ContentPrefix(v, chain[..|chain| - 1], n);
      assert chain[..|chain| - 1][..n] == chain[..n];
    }
  }

  /** Copies bytes from a loaded cluster. */
  method CopyOut(dst: array<byte>, at: nat, cluster: seq<byte>, from: nat, n: nat)
    requires at + n <= dst.Length && from + n <= |cluster|
    modifies dst
    ensures dst[..] == old(dst[..at]) + cluster[from..from + n] + old(dst[at + n..])
  {
    var i := 0;
    while i < n
      invariant i <= n
      invariant forall k :: 0 <= k < dst.Length ==> dst[k] == if at <= k < at + i then cluster[from + (k - at)] else old(dst[k])
    {
      dst[at + i] := cluster[from + i];
      i := i + 1;
    }
  }

  /** What is copied when a cluster is not needed as a whole. */
  function Part(remaining: nat, clusterSize: nat): nat
  {
    if remaining < clusterSize then remaining else clusterSize
  }

  /** The bytes written so far. */
  ghost predicate ReadUpTo(s: seq<byte>, s0: seq<byte>, content: seq<byte>, done: nat)
  {
    |s| == |s0| && done <= |s| && done <= |content| && s == content[..done] + s0[done..]
  }

  lemma ReadMore(s: seq<byte>, s': seq<byte>, s0: seq<byte>, content: seq<byte>, done: nat, more: seq<byte>)
    requires ReadUpTo(s, s0, content, done) && done + |more| <= |s0| && s' == s[..done] + more + s[done + |more|..]
    requires done + |more| <= |content| && content[done..done + |more|] == more
    ensures ReadUpTo(s', s0, content, done + |more|)
  {
    assert content[..done + |more|] == content[..done] + more;
    assert s[done + |more|..] == s0[done + |more|..];
  }

  lemma PrefixSlice(c: seq<byte>, part: seq<byte>, a: seq<byte>, cl: seq<byte>, n: nat)
    requires |part| <= |c| && c[..|part|] == part && part == a + cl && n <= |cl|
    ensures |a| + n <= |c| && c[|a|..|a| + n] == cl[..n]
  {
    forall k | 0 <= k < n
      ensures c[|a| + k] == cl[k]
    {
      assert c[|a| + k] == part[|a| + k];
    }
    assert c[|a|..|a| + n] == cl[..n];
  }

  /** Cluster number i of the chain is what its content holds from i * clusterSize on. */
  lemma ClusterInContent(v: Volume, chain: seq<nat>, i: nat, n: nat)
    requires VolumeOk(v) && i < |chain| && (forall k :: 0 <= k < |chain| ==> chain[k] < |v.clusters|) && n <= v.clusterSize
    ensures var at := Times(i, v.clusterSize);
            at + n <= |Content(v, chain)| && Content(v, chain)[at..at + n] == v.clusters[chain[i]][..n]
  {
    hide VolumeOk, Times;
    var m := i + 1;
    ContentPrefix(v, chain, m);
    assert chain[..m][..i] == chain[..i];
    ContentSize(v, chain[..i]);
    ClusterSize(v, chain[i]);
    PrefixSlice(Content(v, chain), Content(v, chain[..m]), Content(v, chain[..i]), v.clusters[chain[i]], n);
  }

  lemma ClusterSize(v: Volume, c: nat)
    requires VolumeOk(v) && c < |v.clusters|
    ensures |v.clusters[c]| == v.clusterSize > 0
  {
  }

  // ---------- when the loop ends ----------

  /** The walk comes to a cycle of clusters numbered below the first, with bytes still to read. */
  ghost predicate Trapped(v: Volume, first: nat, size: nat)
  {
    exists chain: seq<nat>, i: nat :: Cycles(v, first, chain, i, size)
  }

  /** Behind the last cluster of the chain the walk is back at number i. */
  ghost predicate Cycles(v: Volume, first: nat, chain: seq<nat>, i: nat, size: nat)
  {
    && IsChain(v, chain) && i < |chain| && chain[0] == first && chain[|chain| - 1] < |v.fat|
    && v.fat[chain[|chain| - 1]] == chain[i]
    && (forall k :: i <= k < |chain| ==> chain[k] < first)
    && Times(|Skipping(first, chain)|, v.clusterSize) <= size
  }

  /** In such a cycle every chain from the first cluster on stays, and reads nothing more. */
  lemma {:induction false} StaysInCycle(v: Volume, first: nat, c: seq<nat>, i: nat, size: nat, d: seq<nat>)
    requires VolumeOk(v) && first < |v.fat| && Cycles(v, first, c, i, size)
    requires IsChain(v, d) && |d| > 0 && d[0] == first
    ensures forall k :: 0 <= k < |d| && k < |c| ==> d[k] == c[k]
    ensures |d| > |c| ==> InCycle(c, i, d[|d| - 1])
    ensures |Skipping(first, d)| <= |Skipping(first, c)|
    decreases |d|
  {
    hide VolumeOk, Skipping, Times;
    if |d| == 1 {
      SkippingPrefix(first, c, 1);
      assert c[..1] == d;
    } else {
      var e := d[..|d| - 1];
      StaysInCycle(v, first, c, i, size, e);
      NextInCycle(v, first, c, i, size, e, d[|d| - 1]);
      if |d| <= |c| {
        assert c[..|d|] == d by {
          assert forall k :: 0 <= k < |e| ==> d[k] == e[k];
        }
        SkippingPrefix(first, c, |d|);
      } else {
        assert d[|d| - 1] < first;
        SkippingSnoc(first, e, d[|d| - 1]);
        assert d == e + [d[|d| - 1]];
      }
    }
  }

  lemma SkippingSnoc(first: nat, chain: seq<nat>, c: nat)
    ensures Skipping(first, chain + [c]) == if c < first then Skipping(first, chain) else Skipping(first, chain) + [c]
  {
    assert (chain + [c])[..|chain|] == chain;
  }

  ghost predicate InCycle(c: seq<nat>, i: nat, x: nat)
  {
    exists k :: i <= k < |c| && c[k] == x
  }

  lemma NextInCycle(v: Volume, first: nat, c: seq<nat>, i: nat, size: nat, e: seq<nat>, x: nat)
    requires VolumeOk(v) && Cycles(v, first, c, i, size) && |e| > 0 && e[|e| - 1] < |v.fat| && x == v.fat[e[|e| - 1]]
    requires (forall k :: 0 <= k < |e| && k < |c| ==> e[k] == c[k]) && (|e| > |c| ==> InCycle(c, i, e[|e| - 1]))
    ensures if |e| < |c| then x == c[|e|] else InCycle(c, i, x) && x < first
  {
    hide Skipping, Times, VolumeOk;
    if |e| == |c| {
      assert c[i] == x;
    } else if |e| > |c| {
      var k :| i <= k < |c| && c[k] == e[|e| - 1];
      assert x == if k + 1 < |c| then c[k + 1] else c[i];
    }
  }

  /** Distinct numbers below a bound are not more than the bound. */
  lemma {:induction false} Pigeons(s: seq<nat>, n: nat)
    requires (forall i, j :: 0 <= i < j < |s| ==> s[i] != s[j]) && forall i :: 0 <= i < |s| ==> s[i] < n
    ensures |s| <= n
    decreases n
  {
    if |s| > 0 {
      assert s[0] < n;
      if k :| 0 <= k < |s| && s[k] == n - 1 {
        var r := s[..k] + s[k + 1..];
        assert forall i :: 0 <= i < |r| ==> r[i] == s[if i < k then i else i + 1];
        Pigeons(r, n - 1);
      } else {
        assert forall i :: 0 <= i < |s| ==> s[i] < n - 1;
        Pigeons(s, n - 1);
      }
    }
  }

  /** A chain that has come from its first cluster, and since number i only to different clusters that
      are not read. */
  ghost predicate Walking(v: Volume, first: nat, chain: seq<nat>, i: nat, size: nat)
  {
    && IsChain(v, chain) && |chain| > 0 && chain[0] == first && chain[|chain| - 1] < |v.fat|
    && 1 <= i <= |chain| <= first + i && |Skipping(first, chain)| <= size + 1
    && (forall k :: i <= k < |chain| ==> chain[k] < first)
    && forall k, l :: i <= k < l < |chain| ==> chain[k] != chain[l]
  }

  lemma WalkOn(v: Volume, first: nat, chain: seq<nat>, i: nat, size: nat) returns (longer: seq<nat>, j: nat)
    requires VolumeOk(v) && !Trapped(v, first, size) && Walking(v, first, chain, i, size) && !Ends(v, first, chain, size)
    ensures Walking(v, first, longer, j, size)
    ensures |Skipping(first, longer)| > |Skipping(first, chain)|
         || (|Skipping(first, longer)| == |Skipping(first, chain)| && j == i && |longer| == |chain| + 1)
  {
    hide Skipping, Times, Trapped;
    var next := v.fat[chain[|chain| - 1]];
    if next < first {
      forall k | i <= k < |chain|
        ensures chain[k] != next
      {
        NoCycle(v, first, chain, k, size);
      }
    }
    if |Skipping(first, chain)| > size {
      EnoughRead(|Skipping(first, chain)|, v.clusterSize, size);
    }
    SkippingSnoc(first, chain, next);
    longer := chain + [next];
    j := if next >= first then |longer| else i;
    Pigeons(longer[j..], first);
  }

  lemma NoCycle(v: Volume, first: nat, chain: seq<nat>, k: nat, size: nat)
    requires VolumeOk(v) && !Trapped(v, first, size) && IsChain(v, chain) && k < |chain| && chain[0] == first
    requires chain[|chain| - 1] < |v.fat| && !Ends(v, first, chain, size)
    requires forall l :: k <= l < |chain| ==> chain[l] < first
    ensures chain[k] != v.fat[chain[|chain| - 1]]
  {
    hide Skipping, Times, IsChain;
    assert !Cycles(v, first, chain, k, size);
  }

  /** Unless it is trapped, the walk reaches the end of the chain or has read more than enough. */
  lemma FindEnd(v: Volume, first: nat, size: nat) returns (chain: seq<nat>)
    requires VolumeOk(v) && first < |v.fat| && !Trapped(v, first, size)
    ensures Ends(v, first, chain, size)
  {
    hide Skipping, Times, Trapped, Ends, IsChain;
    chain := [first];
    var i: nat := 1;
    FirstRead(v, first, size);
    while !Ends(v, first, chain, size)
      invariant Walking(v, first, chain, i, size)
      decreases size + 1 - |Skipping(first, chain)|, first + i - |chain|
    {
      chain, i := WalkOn(v, first, chain, i, size);
    }
  }

  lemma FirstRead(v: Volume, first: nat, size: nat)
    requires VolumeOk(v) && first < |v.fat|
    ensures Walking(v, first, [first], 1, size)
  {
    SkippingSnoc(first, [], first);
    assert [] + [first] == [first];
  }

  lemma {:induction false} EnoughRead(n: nat, k: nat, size: nat)
    requires k > 0 && n > size
    ensures Times(n, k) > size
  {
    if n > 0 && size > 0 {
      EnoughRead(n - 1, k, size - 1);
    }
  }

  /** The loop of Read ends if and only if the walk is not trapped. */
  lemma EndsExactly(v: Volume, first: nat, size: nat)
    requires VolumeOk(v) && first < |v.fat|
    ensures (exists chain :: Ends(v, first, chain, size)) <==> !Trapped(v, first, size)
  {
    hide VolumeOk, Skipping, Times;
    if !Trapped(v, first, size) {
      var chain := FindEnd(v, first, size);
    } else {
      var c: seq<nat>, i: nat :| Cycles(v, first, c, i, size);
      forall d | IsChain(v, d) && |d| > 0 && d[0] == first && d[|d| - 1] < |v.fat|
        ensures !Ends(v, first, d, size)
      {
        StaysInCycle(v, first, c, i, size, d);
        NextInCycle(v, first, c, i, size, d, v.fat[d[|d| - 1]]);
        NotTheEnd(v, first, c, i, size, d);
      }
    }
  }

  lemma NotTheEnd(v: Volume, first: nat, c: seq<nat>, i: nat, size: nat, d: seq<nat>)
    requires VolumeOk(v) && first < |v.fat| && Cycles(v, first, c, i, size) && |d| > 0 && d[|d| - 1] < |v.fat|
    requires var x := v.fat[d[|d| - 1]]; if |d| < |c| then x == c[|d|] else x < first
    requires |Skipping(first, d)| <= |Skipping(first, c)|
    ensures !Ends(v, first, d, size)
  {
    hide Skipping, Times;
    TimesMono(|Skipping(first, d)|, |Skipping(first, c)|, v.clusterSize);
  }

  /** A walk that never goes below the first cluster is not trapped, also when it is cyclic. */
  lemma NeverBelow(v: Volume, first: nat, size: nat)
    requires forall chain :: IsChain(v, chain) && |chain| > 0 && chain[0] == first ==> chain[|chain| - 1] >= first
    ensures !Trapped(v, first, size)
  {
    hide IsChain, Skipping, Times;
  }

  /** A file at cluster 2 that goes on with cluster 1, which is its own successor, is never read to its
      end: cluster 1 is skipped for ever. */
  lemma TrapExample() returns (v: Volume)
    ensures VolumeOk(v) && Trapped(v, 2, 512)
  {
    v := Volume(seq(65536, c => if c == 1 || c == 2 then 1 else FAT_END),
                seq(65536, c => seq(512, i => 0)), 512);
    var chain := [2, 1];
    SkippingSnoc(2, [], 2);
    SkippingSnoc(2, [2], 1);
    assert [] + [2] == [2] && [2] + [1] == chain;
    assert Times(1, 512) == 512;
    assert Cycles(v, 2, chain, 1, 512);
  }

  // ---------- reading ----------

  /** Reads the first `size` bytes of a file, given its first cluster and its length. The bytes written
      are those of the clusters of the chain that are not numbered below the first, as far as there are
      any; the rest of the buffer is left alone. */
  method Read(v: Volume, first: nat, fileSize: nat, size: nat, dst: array<byte>) returns (ghost chain: seq<nat>)
    requires VolumeOk(v) && first < |v.fat| && size <= dst.Length
    requires 0 < size <= fileSize ==> !Trapped(v, first, size)
    modifies dst
    ensures size == 0 || size > fileSize ==> dst[..] == old(dst[..])
    ensures 0 < size <= fileSize ==>
              && Ends(v, first, chain, size)
              && (forall i :: 0 <= i < |Skipping(first, chain)| ==> Skipping(first, chain)[i] < |v.clusters|)
              && var c := Content(v, Skipping(first, chain));
                 var n := if |c| < size then |c| else size;
                 dst[..] == c[..n] + old(dst[n..])
  {
    hide Content, VolumeOk, ReadUpTo, Times, IsChain, Skipping, Ends, Trapped;
    chain := [];
    if size == 0 || size > fileSize {
      return;
    }
    chain := FindEnd(v, first, size);
    ChainFacts(v, first, chain, size);
    ghost var s0, read := dst[..], Skipping(first, chain);
    ghost var content := Content(v, read);
    ContentSize(v, read);
    NothingRead(s0, content, v.clusterSize, first, chain);
    var clusterSize := v.clusterSize;
    var cluster, clusterStart := first, first;
    var remaining: nat := size;
    ghost var i: nat := 0;
    while true
      invariant i < |chain| && cluster == chain[i] && cluster < |v.fat| == |v.clusters| && remaining <= size
      invariant size - remaining == Times(|Skipping(first, chain[..i])|, clusterSize)
      invariant ReadUpTo(dst[..], s0, content, size - remaining)
      decreases |chain| - i
    {
      NextSkipping(first, chain, i);
      if cluster >= clusterStart {
        var last := ReadCluster(v, dst, cluster, size, remaining, s0, read, |Skipping(first, chain[..i])|);
        if last {
          AllRead(dst[..], s0, content, size);
          return;
        }
        remaining := remaining - clusterSize;
      }
      Advance(v, first, chain, size, i, remaining);
      cluster := v.fat[cluster];
      i := i + 1;
      if cluster == FAT_END {
        break;
      }
    }
    assert chain[..i] == chain;
    AllRead(dst[..], s0, content, size - remaining);
  }

  lemma ChainFacts(v: Volume, first: nat, chain: seq<nat>, size: nat)
    requires VolumeOk(v) && Ends(v, first, chain, size)
    ensures |chain| > 0 && chain[0] == first && first < |v.fat| == |v.clusters| && v.clusterSize > 0
    ensures forall i :: 0 <= i < |chain| ==> chain[i] < |v.clusters|
    ensures forall i :: 0 <= i < |Skipping(first, chain)| ==> Skipping(first, chain)[i] < |v.clusters|
  {
    forall i | 0 <= i < |Skipping(first, chain)|
      ensures Skipping(first, chain)[i] < |v.clusters|
    {
      SkippedInside(v, first, chain, i);
    }
  }

  /** The next cluster is either skipped or the next one that is read. */
  lemma NextSkipping(first: nat, chain: seq<nat>, i: nat)
    requires i < |chain|
    ensures var k, n := Skipping(first, chain[..i]), Skipping(first, chain[..i + 1]);
            if chain[i] < first then n == k
            else n == k + [chain[i]] && |k| < |Skipping(first, chain)| && Skipping(first, chain)[|k|] == chain[i]
  {
    assert chain[..i + 1][..i] == chain[..i];
    SkippingPrefix(first, chain, i + 1);
  }

  /** After a cluster that was not the last one: the chain goes on, unless the table says it ends. */
  lemma Advance(v: Volume, first: nat, chain: seq<nat>, size: nat, i: nat, remaining: nat)
    requires VolumeOk(v) && Ends(v, first, chain, size) && i < |chain| && remaining <= size
    requires size - remaining == Times(|Skipping(first, chain[..i + 1])|, v.clusterSize)
    ensures chain[i] < |v.fat|
    ensures if i + 1 < |chain| then v.fat[chain[i]] == chain[i + 1] < FAT_END else v.fat[chain[i]] == FAT_END
  {
    if i + 1 == |chain| {
      assert chain[..i + 1] == chain;
    }
  }

  /** When no cluster is numbered below the first and the chain is long enough, what is read is the
      beginning of the file. */
  lemma WholeFile(v: Volume, first: nat, chain: seq<nat>, size: nat)
    requires VolumeOk(v) && Ends(v, first, chain, size) && size <= Times(|chain|, v.clusterSize)
    requires forall i :: 0 <= i < |chain| ==> chain[i] >= first
    ensures forall i :: 0 <= i < |chain| ==> chain[i] < |v.clusters|
    ensures Skipping(first, chain) == chain && size <= |Content(v, chain)|
  {
    NothingSkipped(first, chain);
    ChainFacts(v, first, chain, size);
    ContentSize(v, chain);
  }

  /** One round: copies what is needed of a cluster, and says whether that was all. */
  method ReadCluster(v: Volume, dst: array<byte>, cluster: nat, size: nat, remaining: nat, ghost s0: seq<byte>,
                     ghost chain: seq<nat>, ghost i: nat)
    returns (last: bool)
    requires VolumeOk(v) && (forall k :: 0 <= k < |chain| ==> chain[k] < |v.clusters|) && cluster < |v.clusters|
    requires remaining <= size <= dst.Length && size - remaining == Times(i, v.clusterSize)
    requires i < |chain| && cluster == chain[i]
    requires ReadUpTo(dst[..], s0, Content(v, chain), size - remaining)
    modifies dst
    ensures last <==> remaining < v.clusterSize
    ensures ReadUpTo(dst[..], s0, Content(v, chain), if last then size else size - remaining + v.clusterSize)
    ensures last ==> size <= |Content(v, chain)|
    ensures !last ==> size - (remaining - v.clusterSize) == Times(i + 1, v.clusterSize)
  {
    hide ReadUpTo, Content, Times, VolumeOk;
    var readOffset := 0;
    var writeOffset := size - remaining;
    ghost var s := dst[..];
    var loaded := v.clusters[cluster];
    ClusterSize(v, cluster);
    last := remaining < v.clusterSize;
    ClusterInContent(v, chain, i, Part(remaining, v.clusterSize));
    ReadSizes(s, s0, Content(v, chain), writeOffset);
    TimesNext(i, v.clusterSize);
    if last {
      CopyOut(dst, writeOffset, loaded, readOffset, remaining - readOffset);
      ReadMore(s, dst[..], s0, Content(v, chain), writeOffset, loaded[0..remaining]);
    } else {
      CopyOut(dst, writeOffset, loaded, readOffset, v.clusterSize - readOffset);
      ReadMore(s, dst[..], s0, Content(v, chain), writeOffset, loaded[0..v.clusterSize]);
    }
  }

  lemma TimesNext(i: nat, k: nat)
    ensures Times(i + 1, k) == Times(i, k) + k
  {
  }

  lemma ReadSizes(s: seq<byte>, s0: seq<byte>, content: seq<byte>, done: nat)
    requires ReadUpTo(s, s0, content, done)
    ensures |s| == |s0| && done <= |content| && content[done..done + 0] == []
  {
  }

  lemma NothingRead(s: seq<byte>, content: seq<byte>, k: nat, first: nat, chain: seq<nat>)
    ensures ReadUpTo(s, s, content, 0) && Times(|Skipping(first, chain[..0])|, k) == 0
  {
  }

  lemma AllRead(s: seq<byte>, s0: seq<byte>, content: seq<byte>, size: nat)
    requires ReadUpTo(s, s0, content, size)
    ensures size <= |content| && size <= |s0| && s == content[..size] + s0[size..]
  {
  }
}
