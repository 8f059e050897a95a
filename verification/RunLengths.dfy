/**
 Run-length coding of the code lengths in a dynamic block (RFC 1951 section 3.2.7), the
 encoder's side: lengths become symbols 0..15, and 16, 17 or 18 with a repeat count after it.
 */
module RunLengths {
  import opened InflateSpec
  import opened DeflateFormat

  /** How an item is stored: its symbol, and a count behind a repeat symbol. */
  function ItemCodes(it: LengthItem): (cs: seq<nat>)
    requires ItemOk(it, 1)
    ensures 1 <= |cs| <= 2 && cs[0] == ItemSymbol(it) && (|cs| == 2 <==> cs[0] >= 16)
  {
    match it
    case Plain(v) => [v]
    case Again(n) => [16, n - 3]
    case ShortZeros(n) => [17, n - 3]
    case LongZeros(n) => [18, n - 11]
  }

  ghost predicate AllItemsOk(its: seq<LengthItem>)
  {
    forall i :: 0 <= i < |its| ==> ItemOk(its[i], 1)
  }

  function AllItemCodes(its: seq<LengthItem>): seq<nat>
    requires AllItemsOk(its)
  {
    if |its| == 0 then [] else AllItemCodes(its[..|its| - 1]) + ItemCodes(its[|its| - 1])
  }

  /** Item k is stored behind the items before it. */
  lemma {:induction false} ItemCodesAt(its: seq<LengthItem>, k: nat)
    requires AllItemsOk(its) && k < |its|
    ensures var p, q := |AllItemCodes(its[..k])|, |AllItemCodes(its[..k + 1])|;
            p + |ItemCodes(its[k])| == q <= |AllItemCodes(its)| && AllItemCodes(its)[p..q] == ItemCodes(its[k])
  {
    hide ItemCodes;
    var us := its[..|its| - 1];
    if k == |its| - 1 {
      assert its[..k] == us && its[..k + 1] == its;
    } else {
      ItemCodesAt(us, k);
      assert us[..k] == its[..k] && us[..k + 1] == its[..k + 1];
    }
  }

  /** What is stored so far stands for the first i lengths, in no more than i numbers. */
  ghost predicate RunsUpTo(e: seq<nat>, its: seq<LengthItem>, lens: seq<nat>, i: nat)
  {
    && ItemsOk(its) && AllItemsOk(its) && i <= |lens| && ItemsLengths(its) == lens[..i]
    && e == AllItemCodes(its) && |e| <= i
  }

  ghost predicate Run(lens: seq<nat>, i: nat, n: nat, v: nat)
  {
    i + n <= |lens| && forall k :: i <= k < i + n ==> lens[k] == v
  }

  lemma NoRuns(lens: seq<nat>)
    ensures RunsUpTo([], [], lens, 0)
  {
  }

  /** Storing one more item that says what comes next. */
  lemma AddItem(e: seq<nat>, its: seq<LengthItem>, lens: seq<nat>, i: nat, it: LengthItem)
    requires RunsUpTo(e, its, lens, i) && ItemOk(it, |its|)
    requires match it
             case Plain(v) => Run(lens, i, 1, v)
             case Again(n) => i > 0 && Run(lens, i, n, lens[i - 1])
             case ShortZeros(n) => Run(lens, i, n, 0)
             case LongZeros(n) => Run(lens, i, n, 0)
    ensures ItemOk(it, 1)
    ensures RunsUpTo(e + ItemCodes(it), its + [it], lens, i + |ItemLengths(it, lens[..i])|)
  {
    var its' := its + [it];
    assert its'[..|its'| - 1] == its;
    var add := ItemLengths(it, lens[..i]);
    assert lens[..i] + add == lens[..i + |add|];
  }

  // ---------- no room is wasted ----------

  predicate ZeroRun(it: LengthItem)
  {
    it.ShortZeros? || it.LongZeros?
  }

  /** Two items that follow each other: a run goes as far as it can. */
  predicate Tight(a: LengthItem, b: LengthItem)
  {
    && (ZeroRun(a) && (ZeroRun(b) || b == Plain(0)) ==> a == LongZeros(138))
    && (a.Again? && b.Again? ==> a == Again(6))
  }

  /** How often the length v stands by itself at the end. */
  function Plains(its: seq<LengthItem>, v: nat): (t: nat)
    ensures t <= |its|
  {
    if |its| > 0 && its[|its| - 1] == Plain(v) then Plains(its[..|its| - 1], v) + 1 else 0
  }

  predicate FewPlains(t: nat, v: nat)
  {
    t <= if v == 0 then 2 else 3
  }

  ghost predicate FewAtEnd(its: seq<LengthItem>)
  {
    forall v: nat :: FewPlains(Plains(its, v), v)
  }

  /** Runs are stored as runs: no length stands four times in a row, zero not three times, and no run is cut
      shorter than it could be. */
  ghost predicate Compact(its: seq<LengthItem>)
  {
    && (forall k: nat :: k <= |its| ==> FewAtEnd(its[..k]))
    && forall k :: 0 <= k < |its| - 1 ==> Tight(its[k], its[k + 1])
  }

  /** What follows item `it` at i does not continue its run. */
  ghost predicate RunOver(it: LengthItem, lens: seq<nat>, i: nat)
  {
    && (ZeroRun(it) && it != LongZeros(138) ==> i >= |lens| || lens[i] != 0)
    && (it.Again? && it != Again(6) ==> 0 < i && (i >= |lens| || lens[i] != lens[i - 1]))
  }

  /** t times the length v before i, which do not start a longer run. */
  ghost predicate TailOf(lens: seq<nat>, i: nat, t: nat, v: nat)
  {
    t > 0 ==> t <= i && Run(lens, i - t, t, v) && !Run(lens, i - t, if v == 0 then 3 else 4, v)
  }

  /** The plain lengths at the end of the items are those before i. */
  ghost predicate PlainTail(its: seq<LengthItem>, lens: seq<nat>, i: nat)
  {
    forall v: nat :: TailOf(lens, i, Plains(its, v), v)
  }

  ghost predicate CompactTo(its: seq<LengthItem>, lens: seq<nat>, i: nat)
  {
    && Compact(its) && PlainTail(its, lens, i)
    && (|its| > 0 ==> RunOver(its[|its| - 1], lens, i))
  }

  lemma NothingCompact(lens: seq<nat>)
    ensures CompactTo([], lens, 0)
  {
  }

  /** One more item. */
  lemma CompactMore(its: seq<LengthItem>, it: LengthItem)
    requires Compact(its) && (|its| > 0 ==> Tight(its[|its| - 1], it))
    requires it.Plain? ==> FewPlains(Plains(its, it.v) + 1, it.v)
    ensures Compact(its + [it])
  {
    hide Tight, FewAtEnd;
    var its' := its + [it];
    assert its[..|its|] == its;
    FewMore(its, it);
    forall k: nat | k <= |its'|
      ensures FewAtEnd(its'[..k])
    {
      if k <= |its| {
        assert its'[..k] == its[..k];
      } else {
        assert its'[..k] == its';
      }
    }
  }

  lemma FewMore(its: seq<LengthItem>, it: LengthItem)
    requires FewAtEnd(its) && (it.Plain? ==> FewPlains(Plains(its, it.v) + 1, it.v))
    ensures FewAtEnd(its + [it])
  {
    hide Plains;
    forall v: nat
      ensures FewPlains(Plains(its + [it], v), v)
    {
      PlainsMore(its, it, v);
    }
  }

  lemma ShortRun(lens: seq<nat>, i: nat, t: nat, v: nat)
    requires Run(lens, i, t, v) && !Run(lens, i, if v == 0 then 3 else 4, v)
    ensures FewPlains(t, v)
  {
  }

  lemma PlainsMore(its: seq<LengthItem>, it: LengthItem, v: nat)
    ensures Plains(its + [it], v) == if it == Plain(v) then Plains(its, v) + 1 else 0
  {
    assert (its + [it])[..|its|] == its;
  }

  /** Plain lengths stay few in a row. */
  lemma CompactPlain(its: seq<LengthItem>, lens: seq<nat>, i: nat, v: nat)
    requires CompactTo(its, lens, i) && i < |lens| && lens[i] == v
    requires !Run(lens, i, if v == 0 then 3 else 4, v)
    ensures CompactTo(its + [Plain(v)], lens, i + 1)
  {
    hide Compact, Plains;
    var t, m := Plains(its, v), i + 1;
    assert TailOf(lens, i, t, v);
    ShortRun(lens, i - t, t + 1, v);
    CompactMore(its, Plain(v));
    forall u: nat
      ensures TailOf(lens, m, Plains(its + [Plain(v)], u), u)
    {
      PlainsMore(its, Plain(v), u);
    }
  }

  lemma RunFrom(lens: seq<nat>, i: nat, t: nat, v: nat)
    requires t <= i && Run(lens, i - t, t, v) && Run(lens, i, 4, v)
    ensures Run(lens, i - t, 4, v)
  {
  }

  /** The first of a long run of equal lengths does not follow one of them. */
  lemma CompactFirst(its: seq<LengthItem>, lens: seq<nat>, i: nat, v: nat)
    requires CompactTo(its, lens, i) && Run(lens, i, 4, v) && v != 0
    ensures Compact(its + [Plain(v)])
  {
    hide Compact, Plains;
    var t := Plains(its, v);
    assert TailOf(lens, i, t, v);
    if t > 0 {
      RunFrom(lens, i, t, v);
    }
    CompactMore(its, Plain(v));
  }

  /** Behind a repetition no plain length is at the end. */
  lemma CompactBehind(its: seq<LengthItem>, lens: seq<nat>, i: nat)
    requires Compact(its) && |its| > 0 && !its[|its| - 1].Plain? && RunOver(its[|its| - 1], lens, i)
    ensures CompactTo(its, lens, i)
  {
  }

  /** A run stored behind the items. */
  lemma CompactRun(its: seq<LengthItem>, lens: seq<nat>, i: nat, it: LengthItem, n: nat)
    requires CompactTo(its, lens, i) && !it.Plain? && RunOver(it, lens, i + n)
    requires |its| > 0 ==> Tight(its[|its| - 1], it)
    ensures CompactTo(its + [it], lens, i + n)
  {
    hide Compact, Tight;
    CompactMore(its, it);
    CompactBehind(its + [it], lens, i + n);
  }

  /** How often the length at i is repeated behind it. */
  method CountRepeats(lens: seq<nat>, i: nat) returns (j: nat)
    requires i < |lens|
    ensures Run(lens, i, j + 1, lens[i])
    ensures i + j + 1 == |lens| || lens[i + j + 1] != lens[i]
  {
    j := 0;
    while i + j + 1 < |lens| && lens[i + j + 1] == lens[i]
      invariant Run(lens, i, j + 1, lens[i])
    {
      j := j + 1;
    }
  }

  /** Three or more zeros at i; j of them are stored. */
  method StoreZeros(e0: seq<nat>, ghost its0: seq<LengthItem>, ghost lens: seq<nat>, ghost i: nat, j0: nat)
    returns (e: seq<nat>, ghost its: seq<LengthItem>, j: nat)
    requires RunsUpTo(e0, its0, lens, i) && j0 >= 3 && Run(lens, i, j0, 0)
    requires CompactTo(its0, lens, i) && (i + j0 >= |lens| || lens[i + j0] != 0)
    ensures 3 <= j <= j0 && RunsUpTo(e, its, lens, i + j) && CompactTo(its, lens, i + j)
  {
    hide RunsUpTo, ItemsOk, Compact, PlainTail;
    j := j0;
    if j <= 10 {
      AddItem(e0, its0, lens, i, ShortZeros(j));
      CompactRun(its0, lens, i, ShortZeros(j), j);
      e, its := e0 + [17, j - 3], its0 + [ShortZeros(j)];
    } else {
      if j > 138 {
        j := 138;
      }
      AddItem(e0, its0, lens, i, LongZeros(j));
      CompactRun(its0, lens, i, LongZeros(j), j);
      e, its := e0 + [18, j - 11], its0 + [LongZeros(j)];
    }
  }

  lemma RunPart(lens: seq<nat>, i: nat, n: nat, v: nat, a: nat, k: nat)
    requires Run(lens, i, n, v) && a + k <= n
    ensures Run(lens, i + a, k, v) && (a > 0 ==> lens[i + a - 1] == v)
  {
  }

  lemma RunsLength(e: seq<nat>, its: seq<LengthItem>, lens: seq<nat>, i: nat)
    requires RunsUpTo(e, its, lens, i) && i > 0
    ensures |its| > 0
  {
  }

  /** A length and its j0 repetitions, in groups of six; a rest of less than three is left. */
  method StoreRepeats(e0: seq<nat>, ghost its0: seq<LengthItem>, lens: seq<nat>, i: nat, j0: nat)
    returns (e: seq<nat>, ghost its: seq<LengthItem>, j: nat)
    requires RunsUpTo(e0, its0, lens, i) && i < |lens| && lens[i] <= 15 && Run(lens, i, j0 + 1, lens[i])
    requires CompactTo(its0, lens, i) && lens[i] != 0 && j0 >= 3
    requires i + j0 + 1 == |lens| || lens[i + j0 + 1] != lens[i]
    ensures j <= j0 && RunsUpTo(e, its, lens, i + j + 1) && CompactTo(its, lens, i + j + 1)
  {
    hide RunsUpTo, ItemsOk, Run, Compact, PlainTail, Plains;
    j := j0;
    var v := lens[i];
    var num, rest := j / 6, j % 6;
    RunPart(lens, i, j0 + 1, v, 0, 1);
    RunPart(lens, i, j0 + 1, v, 0, 4);
    CompactFirst(its0, lens, i, v);
    AddItem(e0, its0, lens, i, Plain(v));
    e, its := e0 + [v], its0 + [Plain(v)];
    var k := 0;
    while k < num
      invariant k <= num && RunsUpTo(e, its, lens, i + 1 + 6 * k)
      invariant Compact(its) && |its| > 0 && its[|its| - 1] == if k == 0 then Plain(v) else Again(6)
    {
      CompactMore(its, Again(6));
      RunPart(lens, i, j0 + 1, v, 1 + 6 * k, 6);
      RunsLength(e, its, lens, i + 1 + 6 * k);
      AddItem(e, its, lens, i + 1 + 6 * k, Again(6));
      e, its := e + [16, 6 - 3], its + [Again(6)];
      k := k + 1;
    }
    if rest >= 3 {
      RunPart(lens, i, j0 + 1, v, 1 + 6 * k, rest);
      RunsLength(e, its, lens, i + 1 + 6 * k);
      CompactMore(its, Again(rest));
      AddItem(e, its, lens, i + 1 + 6 * k, Again(rest));
      e, its := e + [16, rest - 3], its + [Again(rest)];
    } else {
      j := j - rest;
    }
    RunEnd(lens, i, j0 + 1, v, j);
    CompactBehind(its, lens, i + j + 1);
  }

  lemma RunEnd(lens: seq<nat>, i: nat, n: nat, v: nat, j: nat)
    requires Run(lens, i, n, v) && j < n
    ensures i + j < |lens| && lens[i + j] == v
  {
  }

  /** Run-length codes the lengths. The result stands for exactly these lengths, whatever runs
      there are, and needs no more room than they do. */
  method EncodeRuns(lens: seq<nat>) returns (e: seq<nat>, ghost its: seq<LengthItem>)
    requires forall i :: 0 <= i < |lens| ==> lens[i] <= 15
    ensures ItemsOk(its) && ItemsLengths(its) == lens
    ensures AllItemsOk(its) && e == AllItemCodes(its) && |e| <= |lens| && Compact(its)
  {
    hide RunsUpTo, ItemsOk, Run, Compact, PlainTail;
    e, its := [], [];
    NoRuns(lens);
    NothingCompact(lens);
    var i := 0;
    while i < |lens|
      invariant i <= |lens| && RunsUpTo(e, its, lens, i) && CompactTo(its, lens, i)
    {
      var j := CountRepeats(lens, i);
      if lens[i] == 0 && j >= 2 {
        e, its, j := StoreZeros(e, its, lens, i, j + 1);
        RunsBound(e, its, lens, i + j);
        i := i + j;
      } else if j >= 3 {
        e, its, j := StoreRepeats(e, its, lens, i, j);
        RunsBound(e, its, lens, i + j + 1);
        i := i + j + 1;
      } else {
        RunPart(lens, i, j + 1, lens[i], 0, 1);
        RunTooShort(lens, i, j + 1, lens[i]);
        CompactPlain(its, lens, i, lens[i]);
        AddItem(e, its, lens, i, Plain(lens[i]));
        e, its := e + [lens[i]], its + [Plain(lens[i])];
        i := i + 1;
      }
    }
    RunsDone(e, its, lens);
  }

  /** A maximal run is not longer. */
  lemma RunTooShort(lens: seq<nat>, i: nat, n: nat, v: nat)
    requires Run(lens, i, n, v) && (i + n == |lens| || lens[i + n] != v)
    ensures forall m: nat :: m > n ==> !Run(lens, i, m, v)
  {
  }

  lemma RunsBound(e: seq<nat>, its: seq<LengthItem>, lens: seq<nat>, i: nat)
    requires RunsUpTo(e, its, lens, i)
    ensures i <= |lens|
  {
  }

  lemma RunsDone(e: seq<nat>, its: seq<LengthItem>, lens: seq<nat>)
    requires RunsUpTo(e, its, lens, |lens|)
    ensures ItemsOk(its) && ItemsLengths(its) == lens
    ensures AllItemsOk(its) && e == AllItemCodes(its) && |e| <= |lens|
  {
    assert lens[..|lens|] == lens;
  }

  // ---------- frequencies of the symbols ----------

  function ItemCount(its: seq<LengthItem>, s: nat, n: nat): (c: nat)
    requires n <= |its|
  {
    if n == 0 then 0 else ItemCount(its, s, n - 1) + if ItemSymbol(its[n - 1]) == s then 1 else 0
  }

  lemma {:induction false} ItemCounted(its: seq<LengthItem>, k: nat, n: nat)
    requires k < n <= |its|
    ensures ItemCount(its, ItemSymbol(its[k]), n) > 0
  {
    if k < n - 1 {
      ItemCounted(its, k, n - 1);
    }
  }

  /** Counts the symbols, skipping the repeat counts. */
  method CountItems(e: seq<nat>, ghost its: seq<LengthItem>) returns (freqs: seq<nat>)
    requires AllItemsOk(its) && e == AllItemCodes(its)
    ensures |freqs| == NUM_CODE_LENGTH_CODES
    ensures forall s :: 0 <= s < NUM_CODE_LENGTH_CODES ==> freqs[s] == ItemCount(its, s, |its|)
  {
    hide AllItemCodes;
    freqs := seq(NUM_CODE_LENGTH_CODES, i => 0);
    NoItemCodes(its);
    var i := 0;
    ghost var k := 0;
    while i != |e|
      invariant k <= |its| && i == |AllItemCodes(its[..k])| <= |e|
      invariant |freqs| == NUM_CODE_LENGTH_CODES
      invariant forall s :: 0 <= s < NUM_CODE_LENGTH_CODES ==> freqs[s] == ItemCount(its, s, k)
      decreases |e| - i
    {
      NotAllItems(its, k);
      ItemCodesAt(its, k);
      assert e[i] == AllItemCodes(its)[i..i + |ItemCodes(its[k])|][0];
      freqs := freqs[e[i] := freqs[e[i]] + 1];
      if e[i] >= 16 {
        i := i + 1;
      }
      i := i + 1;
      k := k + 1;
    }
    AllItemsCounted(its, k);
  }

  lemma NoItemCodes(its: seq<LengthItem>)
    ensures AllItemsOk(its[..0]) && |AllItemCodes(its[..0])| == 0
  {
  }

  /** All items are behind index i only when no code is left. */
  lemma AllItemsCounted(its: seq<LengthItem>, k: nat)
    requires AllItemsOk(its) && k <= |its| && |AllItemCodes(its[..k])| == |AllItemCodes(its)|
    ensures k == |its|
  {
    hide AllItemCodes;
    if k < |its| {
      ItemCodesAt(its, k);
    }
  }

  lemma NotAllItems(its: seq<LengthItem>, k: nat)
    requires AllItemsOk(its) && k <= |its| && |AllItemCodes(its[..k])| != |AllItemCodes(its)|
    ensures k < |its|
  {
    assert its[..|its|] == its;
  }
}
