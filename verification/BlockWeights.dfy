/**
 Code lengths for one block of the encoder: a block has no more symbols than bytes, so the weights of
 package-merge stay in 32-bit numbers for both of its trees.
 */
module BlockWeights {
  import opened Bits
  import opened Lz77
  import opened LzEncode
  import opened MergeSorts
  import opened PackageMerge
  import opened BpmPools
  import opened CodeLengths
  import opened DeflateWrite
  import L = PackageLists
  import W = PackageWeights

  function Total(freqs: seq<nat>, n: nat): nat
    requires n <= |freqs|
  {
    if n == 0 then 0 else Total(freqs, n - 1) + freqs[n - 1]
  }

  function LeafWeight(): Leaf -> nat
  {
    (e: Leaf) => e.weight
  }

  lemma {:induction false} LeavesTotal(freqs: seq<nat>, n: nat)
    requires n <= |freqs|
    ensures SumLeaves(LeavesOf(freqs, n), LeafWeight()) == Total(freqs, n)
  {
    if n > 0 {
      LeavesTotal(freqs, n - 1);
      var m := LeavesOf(freqs, n - 1);
      if freqs[n - 1] > 0 {
        assert LeavesOf(freqs, n)[..|m|] == m;
      } else {
        assert LeavesOf(freqs, n) == m;
      }
    }
  }

  lemma {:induction false} WeightsTotal(leaves: seq<Leaf>)
    ensures L.Sum(Weights(leaves)) == SumLeaves(leaves, LeafWeight())
  {
    if |leaves| > 0 {
      var n := |leaves| - 1;
      WeightsTotal(leaves[..n]);
      assert Weights(leaves)[..n] == Weights(leaves[..n]);
    }
  }

  /** For any frequencies that total less than 2^23, the run of package-merge on their sorted leaves never
      adds up two weights to 2^31 or more. */
  lemma FrequenciesFit(freqs: seq<nat>, leaves: seq<Leaf>, maxbitlen: nat, k: nat)
    requires |freqs| <= 512 && Total(freqs, |freqs|) < 0x80_0000
    requires |leaves| >= 2 && Sorted(leaves) && multiset(leaves) == multiset(LeavesOf(freqs, |freqs|))
    requires 0 < maxbitlen <= 15 && 3 <= k <= 2 * |leaves| - 2
    ensures var ws := Weights(leaves);
            W.SumsBelow(RunTo(ws, maxbitlen, k - 1), ws, maxbitlen - 1, k >= 2 * |ws| - 2, 0x8000_0000)
  {
    hide Sorted, LeavesOf, SumLeaves, L.Sum, W.SumsBelow, RunTo;
    SortedLeaves(freqs, leaves);
    AscendingWeights(leaves);
    LeavesTotal(freqs, |freqs|);
    SumPermutation(leaves, LeavesOf(freqs, |freqs|), LeafWeight());
    WeightsTotal(leaves);
    SameNumber(leaves, LeavesOf(freqs, |freqs|));
    W.NoOverflow(Weights(leaves), maxbitlen, k);
  }

  lemma SameNumber(a: seq<Leaf>, b: seq<Leaf>)
    requires multiset(a) == multiset(b)
    ensures |a| == |b|
  {
    assert |multiset(a)| == |multiset(b)|;
  }

  // ---------- frequencies of a block ----------

  lemma {:induction false} TotalUpdate(freqs: seq<nat>, s: nat, v: nat, n: nat)
    requires s < |freqs| && n <= |freqs|
    ensures Total(freqs[s := v], n) + (if s < n then freqs[s] else 0) == Total(freqs, n) + if s < n then v else 0
  {
    if n > 0 {
      TotalUpdate(freqs, s, v, n - 1);
    }
  }

  lemma {:induction false} TotalPrefix(freqs: seq<nat>, n: nat, k: nat)
    requires k <= n <= |freqs|
    ensures Total(freqs[..n], k) == Total(freqs, k) <= Total(freqs, n)
  {
    if k > 0 {
      TotalPrefix(freqs, n, k - 1);
    }
    TotalMono(freqs, k, n);
  }

  lemma {:induction false} TotalMono(freqs: seq<nat>, k: nat, n: nat)
    requires k <= n <= |freqs|
    ensures Total(freqs, k) <= Total(freqs, n)
  {
    if k < n {
      TotalMono(freqs, k, n - 1);
    }
  }

  lemma {:induction false} TotalZero(freqs: seq<nat>, n: nat)
    requires n <= |freqs| && forall i :: 0 <= i < |freqs| ==> freqs[i] == 0
    ensures Total(freqs, n) == 0
  {
    if n > 0 {
      TotalZero(freqs, n - 1);
    }
  }

  /** The frequencies of k tokens, as a sequence. */
  function SymbolCounts(ts: seq<Token>, k: nat): (ll: seq<nat>)
    requires k <= |ts|
    ensures |ll| == 286 && forall s :: 0 <= s < 286 ==> ll[s] == SymbolCount(ts, s, k)
  {
    seq(286, s requires 0 <= s < 286 => SymbolCount(ts, s, k))
  }

  function DistanceCounts(ts: seq<Token>, k: nat): (d: seq<nat>)
    requires k <= |ts|
    ensures |d| == 30 && forall s :: 0 <= s < 30 ==> d[s] == DistanceCount(ts, s, k)
  {
    seq(30, s requires 0 <= s < 30 => DistanceCount(ts, s, k))
  }

  /** Every token is counted once, and a match once more for its distance. */
  lemma {:induction false} CountsTotal(ts: seq<Token>, k: nat)
    requires k <= |ts|
    ensures Total(SymbolCounts(ts, k), 286) == k && Total(DistanceCounts(ts, k), 30) <= k
  {
    hide Total, TokenSymbol, DistanceIndex;
    var ll, d := SymbolCounts(ts, k), DistanceCounts(ts, k);
    if k == 0 {
      TotalZero(ll, 286);
      TotalZero(d, 30);
    } else {
      CountsTotal(ts, k - 1);
      var ll0, d0, s := SymbolCounts(ts, k - 1), DistanceCounts(ts, k - 1), TokenSymbol(ts[k - 1]);
      TotalUpdate(ll0, s, ll0[s] + 1, 286);
      assert ll == ll0[s := ll0[s] + 1];
      if ts[k - 1].Match? {
        var i := DistanceIndex(ts[k - 1].distance);
        TotalUpdate(d0, i, d0[i] + 1, 30);
        assert d == d0[i := d0[i] + 1];
      } else {
        assert d == d0;
      }
    }
  }

  lemma {:induction false} TokensInSize(ts: seq<Token>, n: nat)
    requires AllFit(ts, n)
    ensures |ts| <= TotalSize(ts)
  {
    if |ts| > 0 {
      TokensInSize(ts[..|ts| - 1], n);
    }
  }

  /** The two trees of a block of at most 262144 bytes: whatever unused symbols are cut off, their frequencies
      are small enough. */
  lemma BlockFrequencies(codes: seq<nat>, ts: seq<Token>, data: seq<byte>, start: nat, end: nat, ll: seq<nat>, d: seq<nat>, n: nat)
    requires Encoded(codes, ts, data, start, end) && end - start <= 262144 && Frequencies(ll, d, ts, |ts|)
    ensures |ll| == 286 && |d| == 30
    ensures n <= 286 ==> var f := ll[256 := 1][..n]; Total(f, n) <= end - start + 1 < 0x80_0000
    ensures n <= 30 ==> Total(d[..n], n) <= end - start < 0x80_0000
  {
    hide Expand, AllFit, AllCodes, TotalSize, Total, Coded;
    ExpandSize(ts, data, start, end);
    TokensInSize(ts, start);
    CountsTotal(ts, |ts|);
    assert ll == SymbolCounts(ts, |ts|) && d == DistanceCounts(ts, |ts|);
    TotalUpdate(ll, 256, 1, 286);
    if n <= 286 {
      TotalPrefix(ll[256 := 1], n, n);
      TotalMono(ll[256 := 1], n, 286);
    }
    if n <= 30 {
      TotalPrefix(d, n, n);
      TotalMono(d, n, 30);
    }
  }
}
