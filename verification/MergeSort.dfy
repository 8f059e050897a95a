/**
 The bottom-up stable merge sort of the leaves, between two buffers that swap roles each pass.

 `SortFrom` says what the passes compute; the method below is proved to compute it, and the
 lemmas show that it is sorted and a rearrangement of the input.
 */
module MergeSorts {

  /** A leaf: its weight and the symbol it stands for. */
  datatype Leaf = Leaf(weight: nat, index: nat)

  ghost predicate Sorted(s: seq<Leaf>)
  {
    forall i, j :: 0 <= i < j < |s| ==> s[i].weight <= s[j].weight
  }

  /** Merging two sorted runs; on equal weights the first run goes first. */
  function Merge(x: seq<Leaf>, y: seq<Leaf>): (m: seq<Leaf>)
    ensures |m| == |x| + |y|
  {
    if |x| == 0 then y
    else if |y| == 0 then x
    else if x[0].weight <= y[0].weight then [x[0]] + Merge(x[1..], y)
    else [y[0]] + Merge(x, y[1..])
  }

  /** One pass: neighbouring runs of the given width are merged. */
  function Pass(s: seq<Leaf>, width: nat): (m: seq<Leaf>)
    requires width > 0
    ensures |m| == |s|
  {
    if |s| <= width then s
    else if |s| <= 2 * width then Merge(s[..width], s[width..])
    else Merge(s[..width], s[width..2 * width]) + Pass(s[2 * width..], width)
  }

  function SortFrom(s: seq<Leaf>, width: nat): (m: seq<Leaf>)
    requires width > 0
    ensures |m| == |s|
    decreases if width < |s| then |s| - width else 0
  {
    if width >= |s| then s else SortFrom(Pass(s, width), 2 * width)
  }

  // ---------- the result is sorted and a rearrangement ----------

  lemma {:induction false} MergeMultiset(x: seq<Leaf>, y: seq<Leaf>)
    ensures multiset(Merge(x, y)) == multiset(x) + multiset(y)
  {
    if |x| == 0 || |y| == 0 {
    } else if x[0].weight <= y[0].weight {
      MergeMultiset(x[1..], y);
      assert x == [x[0]] + x[1..];
    } else {
      MergeMultiset(x, y[1..]);
      assert y == [y[0]] + y[1..];
    }
  }

  lemma {:induction false} MergeSorted(x: seq<Leaf>, y: seq<Leaf>)
    requires Sorted(x) && Sorted(y)
    ensures Sorted(Merge(x, y))
    ensures |x| + |y| > 0 ==>
              Merge(x, y)[0].weight == if |y| == 0 || (|x| > 0 && x[0].weight <= y[0].weight)
                                       then x[0].weight else y[0].weight
  {
    if |x| == 0 || |y| == 0 {
    } else if x[0].weight <= y[0].weight {
      MergeSorted(x[1..], y);
      SortedCons(x[0], Merge(x[1..], y));
    } else {
      MergeSorted(x, y[1..]);
      SortedCons(y[0], Merge(x, y[1..]));
    }
  }

  lemma SortedCons(e: Leaf, s: seq<Leaf>)
    requires Sorted(s) && (|s| > 0 ==> e.weight <= s[0].weight)
    ensures Sorted([e] + s)
  {
    forall i, j | 0 <= i < j < |s| + 1
      ensures ([e] + s)[i].weight <= ([e] + s)[j].weight
    {
      if i == 0 && j > 1 {
        assert s[0].weight <= s[j - 1].weight;
      }
    }
  }

  /** Runs of the given width, each sorted. */
  ghost predicate Runs(s: seq<Leaf>, width: nat)
    requires width > 0
  {
    if |s| <= width then Sorted(s) else Sorted(s[..width]) && Runs(s[width..], width)
  }

  lemma {:induction false} PassMultiset(s: seq<Leaf>, width: nat)
    requires width > 0
    ensures multiset(Pass(s, width)) == multiset(s)
  {
    if |s| <= width {
    } else if |s| <= 2 * width {
      MergeMultiset(s[..width], s[width..]);
      assert s == s[..width] + s[width..];
    } else {
      PassMultiset(s[2 * width..], width);
      MergeMultiset(s[..width], s[width..2 * width]);
      assert s == s[..width] + s[width..2 * width] + s[2 * width..];
    }
  }

  lemma {:induction false} PassRuns(s: seq<Leaf>, width: nat)
    requires width > 0 && Runs(s, width)
    ensures Runs(Pass(s, width), 2 * width)
  {
    hide Sorted;
    if |s| <= width {
    } else if |s| <= 2 * width {
      MergeSorted(s[..width], s[width..]);
    } else {
      TwoRuns(s, width);
      PassRuns(s[2 * width..], width);
      MergeSorted(s[..width], s[width..2 * width]);
      RunsCons(Merge(s[..width], s[width..2 * width]), Pass(s[2 * width..], width), 2 * width);
    }
  }

  lemma TwoRuns(s: seq<Leaf>, width: nat)
    requires width > 0 && |s| > 2 * width && Runs(s, width)
    ensures Sorted(s[..width]) && Sorted(s[width..2 * width]) && Runs(s[2 * width..], width)
  {
    assert s[width..][..width] == s[width..2 * width];
    assert s[width..][width..] == s[2 * width..];
  }

  lemma RunsCons(a: seq<Leaf>, b: seq<Leaf>, width: nat)
    requires width > 0 && |a| == width && |b| > 0 && Sorted(a) && Runs(b, width)
    ensures Runs(a + b, width)
  {
    assert (a + b)[..width] == a && (a + b)[width..] == b;
  }

  lemma {:induction false} SortFromCorrect(s: seq<Leaf>, width: nat)
    requires width > 0 && Runs(s, width)
    ensures Sorted(SortFrom(s, width)) && multiset(SortFrom(s, width)) == multiset(s)
    decreases if width < |s| then |s| - width else 0
  {
    hide Sorted;
    if width < |s| {
      PassRuns(s, width);
      PassMultiset(s, width);
      SortFromCorrect(Pass(s, width), 2 * width);
    }
  }

  lemma {:induction false} SingleRuns(s: seq<Leaf>)
    ensures Runs(s, 1)
  {
    if |s| > 1 {
      SingleRuns(s[1..]);
    }
  }

  // ---------- the two-buffer loop ----------

  lemma MergeStep(x: seq<Leaf>, y: seq<Leaf>)
    ensures |x| > 0 && (|y| == 0 || x[0].weight <= y[0].weight) ==>
              Merge(x, y) == [x[0]] + Merge(x[1..], y)
    ensures |y| > 0 && !(|x| > 0 && x[0].weight <= y[0].weight) ==>
              Merge(x, y) == [y[0]] + Merge(x, y[1..])
  {
    if |y| == 0 && |x| > 0 {
      assert x == [x[0]] + x[1..];
      assert Merge(x[1..], y) == x[1..];
    } else if |x| == 0 && |y| > 0 {
      assert y == [y[0]] + y[1..];
      assert Merge(x, y[1..]) == y[1..];
    }
  }

  /** Merges a[p..q] and a[q..r] into b[p..r]. */
  method MergeRuns(a: array<Leaf>, b: array<Leaf>, p: nat, q: nat, r: nat)
    requires a != b && a.Length == b.Length && p <= q <= r <= a.Length
    modifies b
    ensures b[..] == old(b[..p]) + Merge(a[p..q], a[q..r]) + old(b[r..])
  {
    hide Merge;
    var i, j, k := p, q, p;
    ghost var s, m, b0 := a[..], Merge(a[p..q], a[q..r]), b[..];
    assert s[p..q] == a[p..q] && s[q..r] == a[q..r];
    while k < r
      invariant p <= i <= q <= j <= r && k - p == (i - p) + (j - q)
      invariant m[k - p..] == Merge(s[i..q], s[j..r])
      invariant forall x :: p <= x < k ==> b[x] == m[x - p]
      invariant forall x :: (0 <= x < p || k <= x < b.Length) ==> b[x] == b0[x]
    {
      MergeNext(s, i, q, j, r);
      var e;
      if i < q && (j >= r || a[i].weight <= a[j].weight) {
        e := a[i];
        i := i + 1;
      } else {
        e := a[j];
        j := j + 1;
      }
      HeadAndRest(m, k - p, e, Merge(s[i..q], s[j..r]));
      b[k] := e;
      k := k + 1;
    }
    assert b[..] == b0[..p] + m + b0[r..];
  }

  lemma HeadAndRest(m: seq<Leaf>, k: nat, e: Leaf, rest: seq<Leaf>)
    requires k < |m| && m[k..] == [e] + rest
    ensures m[k] == e && m[k + 1..] == rest
  {
    assert m[k + 1..] == m[k..][1..];
  }

  lemma MergeNext(s: seq<Leaf>, i: nat, q: nat, j: nat, r: nat)
    requires i <= q <= j <= r <= |s| && (i < q || j < r)
    ensures Merge(s[i..q], s[j..r])
         == if i < q && (j >= r || s[i].weight <= s[j].weight) then [s[i]] + Merge(s[i + 1..q], s[j..r])
            else [s[j]] + Merge(s[i..q], s[j + 1..r])
  {
    hide Merge;
    MergeStep(s[i..q], s[j..r]);
    assert i < q ==> s[i..q][1..] == s[i + 1..q];
    assert j < r ==> s[j..r][1..] == s[j + 1..r];
  }

  /** What remains of a pass after the runs before p. */
  lemma PassStep(s: seq<Leaf>, width: nat, p: nat, q: nat, r: nat)
    requires width > 0 && p < |s|
    requires q == if p + width > |s| then |s| else p + width
    requires r == if p + 2 * width > |s| then |s| else p + 2 * width
    ensures p <= q <= r <= |s|
    ensures Pass(s[p..], width) == Merge(s[p..q], s[q..r]) + Pass(s[r..], width)
  {
    var t := s[p..];
    assert Pass([], width) == [];
    if |t| <= width {
      assert s[q..r] == [] && s[p..q] == t && s[r..] == [];
    } else if |t| <= 2 * width {
      assert t[..width] == s[p..q] && t[width..] == s[q..r] && s[r..] == [];
    } else {
      assert t[..width] == s[p..q] && t[width..2 * width] == s[q..r] && t[2 * width..] == s[r..];
    }
    MergeEmpty(s[p..q]);
  }

  lemma MergeEmpty(x: seq<Leaf>)
    ensures Merge(x, []) == x
  {
  }

  method MergePass(a: array<Leaf>, b: array<Leaf>, num: nat, width: nat)
    requires a != b && a.Length == b.Length == num && width > 0
    modifies b
    ensures b[..] == Pass(a[..], width)
  {
    hide Pass, Merge;
    var p := 0;
    ghost var s := a[..];
    assert s[0..] == s;
    assert b[..0] == [];
    while p < num
      invariant a[..] == s
      invariant b[..if p < num then p else num] + Pass(s[if p < num then p else num..], width) == Pass(s, width)
      decreases num - p
    {
      var q := if p + width > num then num else p + width;
      var r := if p + 2 * width > num then num else p + 2 * width;
      PassStep(s, width, p, q, r);
      ghost var before := b[..p];
      MergeRuns(a, b, p, q, r);
      ghost var m := Merge(a[p..q], a[q..r]);
      assert b[..r] == before + m;
      assert a[p..q] == s[p..q] && a[q..r] == s[q..r];
      assert (before + m) + Pass(s[r..], width) == before + (m + Pass(s[r..], width));
      p := p + 2 * width;
    }
    PassNone(s[num..], width);
    assert b[..num] == b[..];
  }

  lemma PassNone(s: seq<Leaf>, width: nat)
    requires s == [] && width > 0
    ensures Pass(s, width) == []
  {
  }

  method SortLeaves(leaves: array<Leaf>, num: nat)
    requires leaves.Length == num
    modifies leaves
    ensures leaves[..] == SortFrom(old(leaves[..]), 1)
    ensures Sorted(leaves[..]) && multiset(leaves[..]) == multiset(old(leaves[..]))
  {
    hide Pass, Sorted, Runs;
    var mem := new Leaf[num](_ => Leaf(0, 0));
    var width, counter := 1, 0;
    ghost var s := leaves[..];
    while width < num
      invariant width > 0 && leaves.Length == mem.Length == num && fresh(mem)
      invariant SortFrom(if counter % 2 == 1 then mem[..] else leaves[..], width) == SortFrom(s, 1)
      decreases num - width
    {
      if counter % 2 == 1 {
        MergePass(mem, leaves, num, width);
      } else {
        MergePass(leaves, mem, num, width);
      }
      width, counter := 2 * width, counter + 1;
    }
    if counter % 2 == 1 {
      forall i | 0 <= i < num { leaves[i] := mem[i]; }
      assert leaves[..] == mem[..];
    }
    SingleRuns(s);
    SortFromCorrect(s, 1);
  }
}
