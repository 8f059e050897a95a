/**
 The user-space allocator's heap as data: system blocks ("majors") that hold allocated pieces
 ("minors") in address order. Sizes are those of 32-bit x86.
 */
module LiballocHeaps {

  const MAJOR_HEADER: nat := 24
  const MINOR_HEADER: nat := 24
  const PAGE_SIZE: nat := 4096
  const MIN_PAGES: nat := 16
  const ALIGNMENT: nat := 16
  const ALIGN_INFO: nat := 16

  /** A piece: its header is at addr, its data behind the header; req bytes of it were asked for. */
  datatype Block = Block(addr: nat, size: nat, req: nat)

  datatype Maj = Maj(addr: nat, pages: nat, blocks: seq<Block>)

  function EndOf(b: Block): nat
  {
    b.addr + MINOR_HEADER + b.size
  }

  function Top(m: Maj): nat
  {
    m.addr + m.pages * PAGE_SIZE
  }

  /** The user's pointer: past the header, past the alignment information, up to a multiple of 16. */
  function UserPtr(addr: nat): (p: nat)
    ensures p % ALIGNMENT == 0
    ensures addr + MINOR_HEADER + ALIGN_INFO <= p < addr + MINOR_HEADER + ALIGN_INFO + ALIGNMENT
  {
    var q := addr + MINOR_HEADER + ALIGN_INFO;
    if q % ALIGNMENT == 0 then q else q + (ALIGNMENT - q % ALIGNMENT)
  }

  // ---------- one major ----------

  /** Pieces in address order between lo and hi, each with room for alignment. */
  ghost predicate BlocksOk(bs: seq<Block>, lo: nat, hi: nat)
  {
    && lo <= hi
    && (forall k :: 0 <= k < |bs| ==>
          lo <= bs[k].addr && EndOf(bs[k]) <= hi && bs[k].req + ALIGNMENT + ALIGN_INFO <= bs[k].size)
    && (forall k, l :: 0 <= k < l < |bs| ==> EndOf(bs[k]) <= bs[l].addr)
  }

  /** Where the gap before piece k begins and ends; the gap behind the last piece is number |bs|. */
  function GapStart(bs: seq<Block>, lo: nat, k: nat): nat
    requires k <= |bs|
  {
    if k == 0 then lo else EndOf(bs[k - 1])
  }

  function GapEnd(bs: seq<Block>, hi: nat, k: nat): nat
    requires k <= |bs|
  {
    if k == |bs| then hi else bs[k].addr
  }

  function Inserted(bs: seq<Block>, k: nat, b: Block): (r: seq<Block>)
    requires k <= |bs|
    ensures |r| == |bs| + 1
  {
    bs[..k] + [b] + bs[k..]
  }

  function Removed(bs: seq<Block>, k: nat): (r: seq<Block>)
    requires k < |bs|
    ensures |r| == |bs| - 1
  {
    bs[..k] + bs[k + 1..]
  }

  /** A piece placed into a gap keeps the order. */
  lemma InsertOk(bs: seq<Block>, lo: nat, hi: nat, k: nat, b: Block)
    requires BlocksOk(bs, lo, hi) && k <= |bs|
    requires GapStart(bs, lo, k) <= b.addr && EndOf(b) <= GapEnd(bs, hi, k)
    requires b.req + ALIGNMENT + ALIGN_INFO <= b.size
    ensures BlocksOk(Inserted(bs, k, b), lo, hi)
  {
    var r := Inserted(bs, k, b);
    forall i | 0 <= i < |r|
      ensures lo <= r[i].addr && EndOf(r[i]) <= hi && r[i].req + ALIGNMENT + ALIGN_INFO <= r[i].size
    {
      InsertedPlace(bs, lo, hi, k, b, i);
    }
    forall i, j | 0 <= i < j < |r|
      ensures EndOf(r[i]) <= r[j].addr
    {
      InsertedOrder(bs, lo, hi, k, b, i, j);
    }
  }

  lemma InsertedPlace(bs: seq<Block>, lo: nat, hi: nat, k: nat, b: Block, i: nat)
    requires BlocksOk(bs, lo, hi) && k <= |bs| && i <= |bs|
    requires GapStart(bs, lo, k) <= b.addr && EndOf(b) <= GapEnd(bs, hi, k)
    requires b.req + ALIGNMENT + ALIGN_INFO <= b.size
    ensures var x := Inserted(bs, k, b)[i];
            lo <= x.addr && EndOf(x) <= hi && x.req + ALIGNMENT + ALIGN_INFO <= x.size
  {
    var x := Inserted(bs, k, b)[i];
    assert x == if i < k then bs[i] else if i == k then b else bs[i - 1];
    if k > 0 { assert lo <= bs[k - 1].addr; }
    if k < |bs| { assert EndOf(bs[k]) <= hi; }
  }

  lemma InsertedOrder(bs: seq<Block>, lo: nat, hi: nat, k: nat, b: Block, i: nat, j: nat)
    requires BlocksOk(bs, lo, hi) && k <= |bs| && i < j <= |bs|
    requires GapStart(bs, lo, k) <= b.addr && EndOf(b) <= GapEnd(bs, hi, k)
    ensures EndOf(Inserted(bs, k, b)[i]) <= Inserted(bs, k, b)[j].addr
  {
    var x, y := Inserted(bs, k, b)[i], Inserted(bs, k, b)[j];
    assert x == if i < k then bs[i] else if i == k then b else bs[i - 1];
    assert y == if j < k then bs[j] else if j == k then b else bs[j - 1];
    if j == k {
      if i < k - 1 { assert EndOf(bs[i]) <= bs[k - 1].addr; }
    } else if i == k {
      if k < j - 1 { assert EndOf(bs[k]) <= bs[j - 1].addr; }
    }
  }

  lemma RemoveOk(bs: seq<Block>, lo: nat, hi: nat, k: nat)
    requires BlocksOk(bs, lo, hi) && k < |bs|
    ensures BlocksOk(Removed(bs, k), lo, hi)
  {
  }

  /** Bytes in use, headers included. */
  function UsageOf(bs: seq<Block>): nat
  {
    if |bs| == 0 then 0 else UsageOf(bs[..|bs| - 1]) + (bs[|bs| - 1].size + MINOR_HEADER)
  }

  /** The same without headers. */
  function InUseOf(bs: seq<Block>): nat
  {
    if |bs| == 0 then 0 else InUseOf(bs[..|bs| - 1]) + bs[|bs| - 1].size
  }

  lemma {:induction false} SumConcat(a: seq<Block>, b: seq<Block>)
    ensures UsageOf(a + b) == UsageOf(a) + UsageOf(b) && InUseOf(a + b) == InUseOf(a) + InUseOf(b)
  {
    if |b| == 0 {
      assert a + b == a;
    } else {
      SumConcat(a, b[..|b| - 1]);
      assert (a + b)[..|a + b| - 1] == a + b[..|b| - 1];
    }
  }

  lemma SumOne(b: Block)
    ensures UsageOf([b]) == b.size + MINOR_HEADER && InUseOf([b]) == b.size
  {
    assert [b][..0] == [];
  }

  lemma SumInserted(bs: seq<Block>, k: nat, b: Block)
    requires k <= |bs|
    ensures UsageOf(Inserted(bs, k, b)) == UsageOf(bs) + b.size + MINOR_HEADER
    ensures InUseOf(Inserted(bs, k, b)) == InUseOf(bs) + b.size
  {
    hide UsageOf, InUseOf;
    SumConcat(bs[..k] + [b], bs[k..]);
    SumConcat(bs[..k], [b]);
    SumConcat(bs[..k], bs[k..]);
    SumOne(b);
    assert bs[..k] + bs[k..] == bs;
  }

  lemma SumRemoved(bs: seq<Block>, k: nat)
    requires k < |bs|
    ensures UsageOf(bs) == UsageOf(Removed(bs, k)) + bs[k].size + MINOR_HEADER
    ensures InUseOf(bs) == InUseOf(Removed(bs, k)) + bs[k].size
  {
    hide UsageOf, InUseOf;
    SplitAt(bs, k);
    SumConcat(bs[..k], [bs[k]] + bs[k + 1..]);
    SumConcat([bs[k]], bs[k + 1..]);
    SumConcat(bs[..k], bs[k + 1..]);
    SumOne(bs[k]);
  }

  lemma SplitAt<T>(s: seq<T>, i: nat)
    requires i < |s|
    ensures s == s[..i] + ([s[i]] + s[i + 1..])
  {
  }

  /** Pieces fit into their major together, so that usage never exceeds the size, and a gap never
      exceeds what usage leaves. */
  lemma {:induction false} UsageFits(bs: seq<Block>, lo: nat, hi: nat)
    requires BlocksOk(bs, lo, hi)
    ensures lo + UsageOf(bs) <= GapStart(bs, lo, |bs|) <= hi
  {
    if |bs| > 0 {
      var n := |bs| - 1;
      UsageFits(bs[..n], lo, hi);
      assert GapStart(bs[..n], lo, n) <= bs[n].addr by {
        if n > 0 { assert EndOf(bs[n - 1]) <= bs[n].addr; }
      }
    }
  }

  lemma UsageFitsBelow(bs: seq<Block>, lo: nat, hi: nat, k: nat)
    requires BlocksOk(bs, lo, hi) && k <= |bs|
    ensures lo + UsageOf(bs[..k]) <= GapStart(bs, lo, k) <= GapEnd(bs, hi, k)
    ensures GapEnd(bs, hi, k) + UsageOf(bs[k..]) <= hi
  {
    UsageFits(bs[..k], lo, hi);
    SuffixFits(bs, lo, hi, k);
    if 0 < k < |bs| { assert EndOf(bs[k - 1]) <= bs[k].addr; }
  }

  lemma {:induction false} SuffixFits(bs: seq<Block>, lo: nat, hi: nat, k: nat)
    requires BlocksOk(bs, lo, hi) && k <= |bs|
    ensures GapEnd(bs, hi, k) + UsageOf(bs[k..]) <= hi
    decreases |bs| - k
  {
    if k < |bs| {
      SuffixFits(bs, lo, hi, k + 1);
      assert bs[k..] == [bs[k]] + bs[k + 1..];
      SumConcat([bs[k]], bs[k + 1..]);
      SumOne(bs[k]);
      if k + 1 < |bs| { assert EndOf(bs[k]) <= bs[k + 1].addr; }
    } else {
      assert bs[k..] == [];
    }
  }

  /** A major whose free bytes are too few has no gap that is large enough. */
  lemma NoGapWhenFull(bs: seq<Block>, lo: nat, hi: nat, k: nat, need: nat)
    requires BlocksOk(bs, lo, hi) && k <= |bs| && hi - lo < UsageOf(bs) + need
    ensures GapEnd(bs, hi, k) - GapStart(bs, lo, k) < need
  {
    hide UsageOf, InUseOf, BlocksOk, GapEnd, GapStart;
    UsageFitsBelow(bs, lo, hi, k);
    SumConcat(bs[..k], bs[k..]);
    assert bs[..k] + bs[k..] == bs;
  }

  // ---------- all majors ----------

  ghost predicate MajOk(m: Maj)
  {
    m.addr > 0 && BlocksOk(m.blocks, m.addr + MAJOR_HEADER, Top(m))
  }

  ghost predicate Apart(a: Maj, b: Maj)
  {
    Top(a) <= b.addr || Top(b) <= a.addr
  }

  ghost predicate HeapOk(heap: seq<Maj>)
  {
    && (forall i :: 0 <= i < |heap| ==> MajOk(heap[i]))
    && (forall i, j :: 0 <= i < j < |heap| ==> Apart(heap[i], heap[j]))
  }

  function Allocated(heap: seq<Maj>): nat
  {
    if |heap| == 0 then 0 else Allocated(heap[..|heap| - 1]) + heap[|heap| - 1].pages * PAGE_SIZE
  }

  function InUse(heap: seq<Maj>): nat
  {
    if |heap| == 0 then 0 else InUse(heap[..|heap| - 1]) + InUseOf(heap[|heap| - 1].blocks)
  }

  lemma {:induction false} HeapSums(a: seq<Maj>, b: seq<Maj>)
    ensures Allocated(a + b) == Allocated(a) + Allocated(b) && InUse(a + b) == InUse(a) + InUse(b)
  {
    if |b| == 0 {
      assert a + b == a;
    } else {
      HeapSums(a, b[..|b| - 1]);
      assert (a + b)[..|a + b| - 1] == a + b[..|b| - 1];
    }
  }

  lemma HeapSumOne(m: Maj)
    ensures Allocated([m]) == m.pages * PAGE_SIZE && InUse([m]) == InUseOf(m.blocks)
  {
    assert [m][..0] == [];
  }

  /** Replacing the pieces of one major. */
  function WithBlocks(heap: seq<Maj>, i: nat, bs: seq<Block>): (r: seq<Maj>)
    requires i < |heap|
    ensures |r| == |heap|
  {
    heap[i := heap[i].(blocks := bs)]
  }

  lemma SumsWithBlocks(heap: seq<Maj>, i: nat, bs: seq<Block>)
    requires i < |heap|
    ensures Allocated(WithBlocks(heap, i, bs)) == Allocated(heap)
    ensures InUse(WithBlocks(heap, i, bs)) + InUseOf(heap[i].blocks) == InUse(heap) + InUseOf(bs)
  {
    hide Allocated, InUse, InUseOf;
    var h := WithBlocks(heap, i, bs);
    assert heap == heap[..i] + ([heap[i]] + heap[i + 1..]) && h == heap[..i] + ([h[i]] + heap[i + 1..]);
    HeapSums(heap[..i], [heap[i]] + heap[i + 1..]);
    HeapSums([heap[i]], heap[i + 1..]);
    HeapSums(heap[..i], [h[i]] + heap[i + 1..]);
    HeapSums([h[i]], heap[i + 1..]);
    HeapSumOne(heap[i]);
    HeapSumOne(h[i]);
  }

  lemma OkWithBlocks(heap: seq<Maj>, i: nat, bs: seq<Block>)
    requires HeapOk(heap) && i < |heap| && BlocksOk(bs, heap[i].addr + MAJOR_HEADER, Top(heap[i]))
    ensures HeapOk(WithBlocks(heap, i, bs))
  {
    hide BlocksOk;
    var h := WithBlocks(heap, i, bs);
    forall j | 0 <= j < |h|
      ensures MajOk(h[j])
    {
      assert MajOk(heap[j]);
    }
    forall j, k | 0 <= j < k < |h|
      ensures Apart(h[j], h[k])
    {
      assert Apart(heap[j], heap[k]);
    }
  }

  function WithoutMaj(heap: seq<Maj>, i: nat): (r: seq<Maj>)
    requires i < |heap|
    ensures |r| == |heap| - 1
  {
    heap[..i] + heap[i + 1..]
  }

  lemma OkWithoutMaj(heap: seq<Maj>, i: nat)
    requires HeapOk(heap) && i < |heap|
    ensures HeapOk(WithoutMaj(heap, i))
    ensures Allocated(heap) == Allocated(WithoutMaj(heap, i)) + heap[i].pages * PAGE_SIZE
    ensures InUse(heap) == InUse(WithoutMaj(heap, i)) + InUseOf(heap[i].blocks)
  {
    hide MajOk, Apart, Allocated, InUse, InUseOf;
    SumsWithoutMaj(heap, i);
    var r := WithoutMaj(heap, i);
    forall j | 0 <= j < |r|
      ensures MajOk(r[j])
    {
      assert r[j] == if j < i then heap[j] else heap[j + 1];
    }
    forall j, k | 0 <= j < k < |r|
      ensures Apart(r[j], r[k])
    {
      assert r[j] == if j < i then heap[j] else heap[j + 1];
      assert r[k] == if k < i then heap[k] else heap[k + 1];
    }
  }

  lemma SumsWithoutMaj(heap: seq<Maj>, i: nat)
    requires i < |heap|
    ensures Allocated(heap) == Allocated(WithoutMaj(heap, i)) + heap[i].pages * PAGE_SIZE
    ensures InUse(heap) == InUse(WithoutMaj(heap, i)) + InUseOf(heap[i].blocks)
  {
    hide Allocated, InUse, InUseOf;
    SplitAt(heap, i);
    HeapSums(heap[..i], [heap[i]] + heap[i + 1..]);
    HeapSums([heap[i]], heap[i + 1..]);
    HeapSums(heap[..i], heap[i + 1..]);
    HeapSumOne(heap[i]);
  }

  /** A fresh major at the end of the list. */
  lemma OkAppended(heap: seq<Maj>, m: Maj)
    requires HeapOk(heap) && MajOk(m) && forall i :: 0 <= i < |heap| ==> Apart(heap[i], m)
    ensures HeapOk(heap + [m])
    ensures Allocated(heap + [m]) == Allocated(heap) + m.pages * PAGE_SIZE
    ensures InUse(heap + [m]) == InUse(heap) + InUseOf(m.blocks)
  {
    hide MajOk, Apart, Allocated, InUse, InUseOf;
    HeapSums(heap, [m]);
    HeapSumOne(m);
  }

  // ---------- what users get ----------

  /** The bytes a user may write lie inside their piece, behind the alignment information. */
  lemma UserInside(bs: seq<Block>, lo: nat, hi: nat, k: nat)
    requires BlocksOk(bs, lo, hi) && k < |bs|
    ensures var p := UserPtr(bs[k].addr);
            bs[k].addr + MINOR_HEADER + ALIGN_INFO <= p && p + bs[k].req <= EndOf(bs[k]) <= hi
  {
  }

  /** Two pieces of the heap, from the start of their headers to the end of their data, are disjoint. */
  lemma PiecesDisjoint(heap: seq<Maj>, i: nat, k: nat, j: nat, l: nat)
    requires HeapOk(heap) && i < |heap| && k < |heap[i].blocks| && j < |heap| && l < |heap[j].blocks| && (i != j || k != l)
    ensures var a, b := heap[i].blocks[k], heap[j].blocks[l]; EndOf(a) <= b.addr || EndOf(b) <= a.addr
  {
    assert MajOk(heap[i]) && MajOk(heap[j]);
    if i < j { assert Apart(heap[i], heap[j]); } else if j < i { assert Apart(heap[j], heap[i]); }
    if i == j {
      if k < l { assert EndOf(heap[i].blocks[k]) <= heap[i].blocks[l].addr; }
      else { assert EndOf(heap[i].blocks[l]) <= heap[i].blocks[k].addr; }
    }
  }

  /** Live user ranges are aligned, inside their major, and disjoint. */
  lemma UserRanges(heap: seq<Maj>, i: nat, k: nat, j: nat, l: nat)
    requires HeapOk(heap) && i < |heap| && k < |heap[i].blocks| && j < |heap| && l < |heap[j].blocks|
    ensures var a, b := heap[i].blocks[k], heap[j].blocks[l];
            var p, q := UserPtr(a.addr), UserPtr(b.addr);
            && p % ALIGNMENT == 0 && heap[i].addr < p && p + a.req <= Top(heap[i])
            && (i != j || k != l ==> p + a.req <= q || q + b.req <= p)
  {
    hide UserPtr;
    UserPtrFacts(heap[i].blocks[k].addr);
    UserPtrFacts(heap[j].blocks[l].addr);
    assert MajOk(heap[i]) && MajOk(heap[j]);
    UserInside(heap[i].blocks, heap[i].addr + MAJOR_HEADER, Top(heap[i]), k);
    UserInside(heap[j].blocks, heap[j].addr + MAJOR_HEADER, Top(heap[j]), l);
    if i != j || k != l {
      PiecesDisjoint(heap, i, k, j, l);
    }
  }

  lemma UserPtrFacts(addr: nat)
    ensures UserPtr(addr) % ALIGNMENT == 0
    ensures addr + MINOR_HEADER + ALIGN_INFO <= UserPtr(addr)
  {
  }
}
