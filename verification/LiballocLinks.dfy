/**
 The records that lie in raw memory, by address: doubly linked lists of majors, and in each major of
 minors. Address 0 is NULL.
 */
module LiballocLinks {
  import opened LiballocHeaps

  datatype MajorRec = MajorRec(prev: nat, next: nat, pages: nat, size: nat, usage: nat, first: nat)
  datatype MinorRec = MinorRec(prev: nat, next: nat, block: nat, magic: nat, size: nat, req: nat)

  const LIBALLOC_MAGIC: nat := 0xc001c0de
  const LIBALLOC_DEAD: nat := 0xdeaddead

  // ---------- minors ----------

  function AddrOr0(bs: seq<Block>, k: int): nat
  {
    if 0 <= k < |bs| then bs[k].addr else 0
  }

  /** The record of piece k of a major at blk. */
  function MinorAt(bs: seq<Block>, k: nat, blk: nat): MinorRec
    requires k < |bs|
  {
    MinorRec(AddrOr0(bs, k - 1), AddrOr0(bs, k + 1), blk, LIBALLOC_MAGIC, bs[k].size, bs[k].req)
  }

  ghost predicate MinorsLinked(minors: map<nat, MinorRec>, bs: seq<Block>, blk: nat)
  {
    forall k :: 0 <= k < |bs| ==> bs[k].addr in minors && minors[bs[k].addr] == MinorAt(bs, k, blk)
  }

  ghost predicate AllMinorsLinked(minors: map<nat, MinorRec>, heap: seq<Maj>)
  {
    forall i :: 0 <= i < |heap| ==> MinorsLinked(minors, heap[i].blocks, heap[i].addr)
  }

  ghost predicate IsLive(heap: seq<Maj>, a: nat)
  {
    exists i, k :: 0 <= i < |heap| && 0 <= k < |heap[i].blocks| && heap[i].blocks[k].addr == a
  }

  /** Nothing else carries the magic number. */
  ghost predicate OnlyLive(minors: map<nat, MinorRec>, heap: seq<Maj>)
  {
    forall a :: a in minors && minors[a].magic == LIBALLOC_MAGIC ==> IsLive(heap, a)
  }

  /** Different pieces have different addresses, and none is at 0. */
  lemma AddrsDistinct(heap: seq<Maj>, i: nat, k: nat, j: nat, l: nat)
    requires HeapOk(heap) && i < |heap| && k < |heap[i].blocks| && j < |heap| && l < |heap[j].blocks| && (i != j || k != l)
    ensures heap[i].blocks[k].addr != heap[j].blocks[l].addr
  {
    hide HeapOk;
    PiecesDisjoint(heap, i, k, j, l);
  }

  lemma AddrNotNull(heap: seq<Maj>, i: nat, k: nat)
    requires HeapOk(heap) && i < |heap| && k < |heap[i].blocks|
    ensures heap[i].blocks[k].addr > heap[i].addr > 0
  {
    assert MajOk(heap[i]);
  }

  function SetNext(m: map<nat, MinorRec>, a: nat, next: nat): map<nat, MinorRec>
  {
    if a != 0 && a in m then m[a := m[a].(next := next)] else m
  }

  function SetPrev(m: map<nat, MinorRec>, a: nat, prev: nat): map<nat, MinorRec>
  {
    if a != 0 && a in m then m[a := m[a].(prev := prev)] else m
  }

  /** A new record between two others, either of which may be missing. */
  function LinkIn(m: map<nat, MinorRec>, a: nat, rec: MinorRec): map<nat, MinorRec>
  {
    SetPrev(SetNext(m[a := rec], rec.prev, a), rec.next, a)
  }

  /** A record taken out, and marked dead. */
  function LinkOut(m: map<nat, MinorRec>, a: nat): map<nat, MinorRec>
    requires a in m
  {
    SetNext(SetPrev(m[a := m[a].(magic := LIBALLOC_DEAD)], m[a].next, m[a].prev), m[a].prev, m[a].next)
  }

  lemma LinkInAt(m: map<nat, MinorRec>, a: nat, rec: MinorRec, x: nat)
    requires a != rec.prev && a != rec.next && (rec.prev == rec.next ==> rec.prev == 0)
    ensures var m' := LinkIn(m, a, rec);
            && (x in m' <==> x == a || x in m) && m'[a] == rec
            && (x in m && x != a ==>
                  m'[x] == if x == rec.prev != 0 then m[x].(next := a) else if x == rec.next != 0 then m[x].(prev := a) else m[x])
  {
  }

  lemma LinkOutAt(m: map<nat, MinorRec>, a: nat, x: nat)
    requires a in m && a != m[a].prev && a != m[a].next && (m[a].prev == m[a].next ==> m[a].prev == 0)
    ensures var m' := LinkOut(m, a);
            && (x in m' <==> x in m) && m'[a] == m[a].(magic := LIBALLOC_DEAD)
            && (x in m && x != a ==>
                  m'[x] == if x == m[a].prev != 0 then m[x].(next := m[a].next)
                           else if x == m[a].next != 0 then m[x].(prev := m[a].prev) else m[x])
  {
  }

  // ---------- inserting a piece ----------

  /** The neighbours of piece k are other pieces of the same major, or NULL. */
  lemma Neighbours(heap: seq<Maj>, i: nat, k: nat)
    requires HeapOk(heap) && i < |heap| && k < |heap[i].blocks|
    ensures var bs := heap[i].blocks; var a, p, n := bs[k].addr, AddrOr0(bs, k - 1), AddrOr0(bs, k + 1);
            && a != 0 && a != p && a != n && (p == n ==> p == 0)
  {
    hide HeapOk;
    AddrNotNull(heap, i, k);
    if k > 0 {
      AddrsDistinct(heap, i, k, i, k - 1);
      AddrNotNull(heap, i, k - 1);
    }
    if k + 1 < |heap[i].blocks| {
      AddrsDistinct(heap, i, k, i, k + 1);
      if k > 0 { AddrsDistinct(heap, i, k - 1, i, k + 1); }
    }
  }

  /** Which piece of the old list piece l of the new one is. */
  lemma InsertedAt(bs: seq<Block>, k: nat, b: Block, l: nat)
    requires k <= |bs| && l <= |bs|
    ensures Inserted(bs, k, b)[l] == if l < k then bs[l] else if l == k then b else bs[l - 1]
  {
  }

  lemma InsertedRecord(bs: seq<Block>, k: nat, b: Block, blk: nat, l: nat)
    requires k <= |bs| && l <= |bs| && l != k
    ensures var o := if l < k then l else l - 1; var old' := MinorAt(bs, o, blk);
            MinorAt(Inserted(bs, k, b), l, blk)
            == if l + 1 == k then old'.(next := b.addr) else if l == k + 1 then old'.(prev := b.addr) else old'
  {
    var r := Inserted(bs, k, b);
    InsertedAt(bs, k, b, l);
    if l > 0 { InsertedAt(bs, k, b, l - 1); }
    if l < |bs| { InsertedAt(bs, k, b, l + 1); }
  }

  /** The record at any piece of the heap after the new piece was linked in. */
  lemma LinkedRecord(minors: map<nat, MinorRec>, heap: seq<Maj>, i: nat, k: nat, b: Block, j: nat, l: nat)
    requires i < |heap| && k <= |heap[i].blocks| && AllMinorsLinked(minors, heap)
    requires var h := WithBlocks(heap, i, Inserted(heap[i].blocks, k, b)); HeapOk(h) && j < |h| && l < |h[j].blocks|
    ensures var h := WithBlocks(heap, i, Inserted(heap[i].blocks, k, b));
            var m' := LinkIn(minors, b.addr, MinorAt(h[i].blocks, k, heap[i].addr));
            var a := h[j].blocks[l].addr;
            a in m' && m'[a] == MinorAt(h[j].blocks, l, h[j].addr)
  {
    hide HeapOk, LinkIn, MinorAt, Inserted;
    var bs := heap[i].blocks;
    var h := WithBlocks(heap, i, Inserted(bs, k, b));
    var rec := MinorAt(h[i].blocks, k, heap[i].addr);
    var a := h[j].blocks[l].addr;
    InsertedAt(bs, k, b, k);
    Neighbours(h, i, k);
    RecordLinks(h[i].blocks, k, heap[i].addr);
    LinkInAt(minors, b.addr, rec, a);
    assert MinorsLinked(minors, heap[j].blocks, heap[j].addr);
    if j == i && l == k {
    } else {
      AddrsDistinct(h, j, l, i, k);
      if j == i {
        InsertedAt(bs, k, b, l);
        InsertedRecord(bs, k, b, heap[i].addr, l);
      }
      NeighbourOrNot(h, i, k, j, l);
    }
  }

  lemma RecordLinks(bs: seq<Block>, k: nat, blk: nat)
    requires k < |bs|
    ensures MinorAt(bs, k, blk).prev == AddrOr0(bs, k - 1) && MinorAt(bs, k, blk).next == AddrOr0(bs, k + 1)
    ensures MinorAt(bs, k, blk).magic == LIBALLOC_MAGIC && MinorAt(bs, k, blk).block == blk
    ensures MinorAt(bs, k, blk).size == bs[k].size && MinorAt(bs, k, blk).req == bs[k].req
  {
  }

  /** A piece has the address of a neighbour of piece k exactly if it is that neighbour. */
  lemma NeighbourOrNot(h: seq<Maj>, i: nat, k: nat, j: nat, l: nat)
    requires HeapOk(h) && i < |h| && k < |h[i].blocks| && j < |h| && l < |h[j].blocks| && (j != i || l != k)
    ensures h[j].blocks[l].addr != 0
    ensures h[j].blocks[l].addr == AddrOr0(h[i].blocks, k - 1) <==> j == i && l + 1 == k
    ensures h[j].blocks[l].addr == AddrOr0(h[i].blocks, k + 1) <==> j == i && l == k + 1
  {
    hide HeapOk;
    AddrNotNull(h, j, l);
    if k > 0 && !(j == i && l + 1 == k) {
      AddrsDistinct(h, j, l, i, k - 1);
    }
    if k + 1 < |h[i].blocks| && !(j == i && l == k + 1) {
      AddrsDistinct(h, j, l, i, k + 1);
    }
  }

  lemma LiveAfterInsert(heap: seq<Maj>, i: nat, k: nat, b: Block, a: nat)
    requires i < |heap| && k <= |heap[i].blocks| && (a == b.addr || IsLive(heap, a))
    ensures IsLive(WithBlocks(heap, i, Inserted(heap[i].blocks, k, b)), a)
  {
    var h := WithBlocks(heap, i, Inserted(heap[i].blocks, k, b));
    if a == b.addr {
      InsertedAt(heap[i].blocks, k, b, k);
      assert h[i].blocks[k].addr == a;
    } else {
      var j, l :| 0 <= j < |heap| && 0 <= l < |heap[j].blocks| && heap[j].blocks[l].addr == a;
      var l' := if j == i && l >= k then l + 1 else l;
      if j == i { InsertedAt(heap[i].blocks, k, b, l'); }
      assert h[j].blocks[l'].addr == a;
    }
  }

  /** Linking a new piece in gives the records of the heap with that piece. */
  lemma InsertMinor(minors: map<nat, MinorRec>, heap: seq<Maj>, i: nat, k: nat, b: Block)
    requires i < |heap| && k <= |heap[i].blocks| && AllMinorsLinked(minors, heap) && OnlyLive(minors, heap)
    requires HeapOk(WithBlocks(heap, i, Inserted(heap[i].blocks, k, b)))
    ensures var h := WithBlocks(heap, i, Inserted(heap[i].blocks, k, b));
            var m' := LinkIn(minors, b.addr, MinorAt(h[i].blocks, k, heap[i].addr));
            AllMinorsLinked(m', h) && OnlyLive(m', h)
  {
    hide HeapOk, LinkIn, MinorAt, IsLive, Inserted;
    var h := WithBlocks(heap, i, Inserted(heap[i].blocks, k, b));
    var rec := MinorAt(h[i].blocks, k, heap[i].addr);
    var m' := LinkIn(minors, b.addr, rec);
    forall j | 0 <= j < |h|
      ensures MinorsLinked(m', h[j].blocks, h[j].addr)
    {
      forall l | 0 <= l < |h[j].blocks|
        ensures h[j].blocks[l].addr in m' && m'[h[j].blocks[l].addr] == MinorAt(h[j].blocks, l, h[j].addr)
      {
        LinkedRecord(minors, heap, i, k, b, j, l);
      }
    }
    InsertedAt(heap[i].blocks, k, b, k);
    Neighbours(h, i, k);
    RecordLinks(h[i].blocks, k, heap[i].addr);
    forall a | a in m' && m'[a].magic == LIBALLOC_MAGIC
      ensures IsLive(h, a)
    {
      LinkInAt(minors, b.addr, rec, a);
      LiveAfterInsert(heap, i, k, b, a);
    }
  }

  // ---------- removing a piece ----------

  lemma RemovedRecord(bs: seq<Block>, k: nat, blk: nat, l: nat)
    requires k < |bs| && l < |bs| - 1
    ensures var o := if l < k then l else l + 1; var old' := MinorAt(bs, o, blk);
            && Removed(bs, k)[l] == bs[o]
            && MinorAt(Removed(bs, k), l, blk)
               == if l + 1 == k then old'.(next := AddrOr0(bs, k + 1)) else if l == k then old'.(prev := AddrOr0(bs, k - 1)) else old'
  {
    var r := Removed(bs, k);
    assert r[l] == bs[if l < k then l else l + 1];
    if l > 0 { assert r[l - 1] == bs[if l - 1 < k then l - 1 else l]; }
    if l + 1 < |r| { assert r[l + 1] == bs[if l + 1 < k then l + 1 else l + 2]; }
  }

  lemma UnlinkedRecord(minors: map<nat, MinorRec>, heap: seq<Maj>, i: nat, k: nat, j: nat, l: nat)
    requires HeapOk(heap) && i < |heap| && k < |heap[i].blocks| && AllMinorsLinked(minors, heap)
    requires var h := WithBlocks(heap, i, Removed(heap[i].blocks, k)); j < |h| && l < |h[j].blocks|
    ensures heap[i].blocks[k].addr in minors
    ensures var h := WithBlocks(heap, i, Removed(heap[i].blocks, k));
            var m' := LinkOut(minors, heap[i].blocks[k].addr);
            var a := h[j].blocks[l].addr;
            a in m' && m'[a] == MinorAt(h[j].blocks, l, h[j].addr)
  {
    hide HeapOk, LinkOut, MinorAt, Removed;
    var bs := heap[i].blocks;
    var h := WithBlocks(heap, i, Removed(bs, k));
    assert MinorsLinked(minors, bs, heap[i].addr) && MinorsLinked(minors, heap[j].blocks, heap[j].addr);
    Neighbours(heap, i, k);
    RecordLinks(bs, k, heap[i].addr);
    if j == i {
      RemovedRecord(bs, k, heap[i].addr, l);
    }
    var o := if j == i && l >= k then l + 1 else l;
    LinkOutAt(minors, bs[k].addr, heap[j].blocks[o].addr);
    AddrsDistinct(heap, j, o, i, k);
    NeighbourOrNot(heap, i, k, j, o);
  }

  lemma LiveAfterRemove(heap: seq<Maj>, i: nat, k: nat, a: nat)
    requires i < |heap| && k < |heap[i].blocks| && IsLive(heap, a) && a != heap[i].blocks[k].addr
    ensures IsLive(WithBlocks(heap, i, Removed(heap[i].blocks, k)), a)
  {
    var h := WithBlocks(heap, i, Removed(heap[i].blocks, k));
    var j, l :| 0 <= j < |heap| && 0 <= l < |heap[j].blocks| && heap[j].blocks[l].addr == a;
    var l' := if j == i && l > k then l - 1 else l;
    assert h[j].blocks[l'].addr == a;
  }

  /** Taking a piece out gives the records of the heap without it. */
  lemma RemoveMinor(minors: map<nat, MinorRec>, heap: seq<Maj>, i: nat, k: nat)
    requires HeapOk(heap) && i < |heap| && k < |heap[i].blocks| && AllMinorsLinked(minors, heap) && OnlyLive(minors, heap)
    ensures heap[i].blocks[k].addr in minors
    ensures var h := WithBlocks(heap, i, Removed(heap[i].blocks, k));
            var m' := LinkOut(minors, heap[i].blocks[k].addr);
            AllMinorsLinked(m', h) && OnlyLive(m', h)
  {
    hide HeapOk, LinkOut, MinorAt, Removed, IsLive;
    var bs := heap[i].blocks;
    var h := WithBlocks(heap, i, Removed(bs, k));
    assert MinorsLinked(minors, bs, heap[i].addr);
    var m' := LinkOut(minors, bs[k].addr);
    forall j | 0 <= j < |h|
      ensures MinorsLinked(m', h[j].blocks, h[j].addr)
    {
      forall l | 0 <= l < |h[j].blocks|
        ensures h[j].blocks[l].addr in m' && m'[h[j].blocks[l].addr] == MinorAt(h[j].blocks, l, h[j].addr)
      {
        UnlinkedRecord(minors, heap, i, k, j, l);
      }
    }
    Neighbours(heap, i, k);
    RecordLinks(bs, k, heap[i].addr);
    forall a | a in m' && m'[a].magic == LIBALLOC_MAGIC
      ensures IsLive(h, a)
    {
      LinkOutAt(minors, bs[k].addr, a);
      LiveAfterRemove(heap, i, k, a);
    }
  }

  // ---------- majors ----------

  function MajAddrOr0(heap: seq<Maj>, i: int): nat
  {
    if 0 <= i < |heap| then heap[i].addr else 0
  }

  function MajorAt(heap: seq<Maj>, i: nat): MajorRec
    requires i < |heap|
  {
    MajorRec(MajAddrOr0(heap, i - 1), MajAddrOr0(heap, i + 1), heap[i].pages, heap[i].pages * PAGE_SIZE,
             MAJOR_HEADER + UsageOf(heap[i].blocks), AddrOr0(heap[i].blocks, 0))
  }

  ghost predicate MajorsLinked(majors: map<nat, MajorRec>, heap: seq<Maj>)
  {
    forall i :: 0 <= i < |heap| ==> heap[i].addr in majors && majors[heap[i].addr] == MajorAt(heap, i)
  }

  lemma MajorsDistinct(heap: seq<Maj>, i: nat, j: nat)
    requires HeapOk(heap) && i < |heap| && j < |heap| && i != j
    ensures heap[i].addr != heap[j].addr && heap[i].addr > 0
  {
    assert MajOk(heap[i]) && MajOk(heap[j]);
    if i < j { assert Apart(heap[i], heap[j]); } else { assert Apart(heap[j], heap[i]); }
  }

  /** The pieces of one major change: its usage and first piece do. */
  lemma MajorChanged(majors: map<nat, MajorRec>, heap: seq<Maj>, i: nat, bs: seq<Block>)
    requires HeapOk(heap) && i < |heap| && MajorsLinked(majors, heap)
    ensures heap[i].addr in majors
    ensures var rec := majors[heap[i].addr].(usage := MAJOR_HEADER + UsageOf(bs), first := AddrOr0(bs, 0));
            MajorsLinked(majors[heap[i].addr := rec], WithBlocks(heap, i, bs))
  {
    hide HeapOk, UsageOf;
    var h := WithBlocks(heap, i, bs);
    var rec := majors[heap[i].addr].(usage := MAJOR_HEADER + UsageOf(bs), first := AddrOr0(bs, 0));
    var m' := majors[heap[i].addr := rec];
    forall j | 0 <= j < |h|
      ensures h[j].addr in m' && m'[h[j].addr] == MajorAt(h, j)
    {
      if j != i { MajorsDistinct(heap, i, j); }
    }
  }

  function SetMajNext(m: map<nat, MajorRec>, a: nat, next: nat): map<nat, MajorRec>
  {
    if a != 0 && a in m then m[a := m[a].(next := next)] else m
  }

  function SetMajPrev(m: map<nat, MajorRec>, a: nat, prev: nat): map<nat, MajorRec>
  {
    if a != 0 && a in m then m[a := m[a].(prev := prev)] else m
  }

  /** A new major behind the last one. */
  lemma MajorAppended(majors: map<nat, MajorRec>, heap: seq<Maj>, m: Maj)
    requires HeapOk(heap + [m]) && MajorsLinked(majors, heap) && m.blocks == []
    ensures var last := MajAddrOr0(heap, |heap| - 1);
            var rec := MajorRec(last, 0, m.pages, m.pages * PAGE_SIZE, MAJOR_HEADER, 0);
            MajorsLinked(SetMajNext(majors, last, m.addr)[m.addr := rec], heap + [m])
  {
    hide HeapOk, MajorAt, SetMajNext;
    var h := heap + [m];
    var last := MajAddrOr0(heap, |heap| - 1);
    var rec := MajorRec(last, 0, m.pages, m.pages * PAGE_SIZE, MAJOR_HEADER, 0);
    var m' := SetMajNext(majors, last, m.addr)[m.addr := rec];
    forall j | 0 <= j < |h|
      ensures h[j].addr in m' && m'[h[j].addr] == MajorAt(h, j)
    {
      AppendedRecord(heap, m, j);
      if j < |heap| {
        MajorsDistinct(h, j, |heap|);
        if j < |heap| - 1 { MajorsDistinct(h, j, |heap| - 1); }
        SetNextAt(majors, last, m.addr, h[j].addr);
      }
    }
  }

  lemma SetNextAt(m: map<nat, MajorRec>, a: nat, next: nat, x: nat)
    ensures x in m ==> x in SetMajNext(m, a, next)
                       && SetMajNext(m, a, next)[x] == if x == a != 0 then m[x].(next := next) else m[x]
  {
  }

  lemma AppendedRecord(heap: seq<Maj>, m: Maj, j: nat)
    requires j <= |heap| && m.blocks == []
    ensures MajorAt(heap + [m], j)
         == if j == |heap| then MajorRec(MajAddrOr0(heap, |heap| - 1), 0, m.pages, m.pages * PAGE_SIZE, MAJOR_HEADER, 0)
            else if j + 1 == |heap| then MajorAt(heap, j).(next := m.addr)
            else MajorAt(heap, j)
  {
  }

  /** A major taken out. */
  lemma MajorRemoved(majors: map<nat, MajorRec>, heap: seq<Maj>, i: nat)
    requires HeapOk(heap) && i < |heap| && MajorsLinked(majors, heap)
    ensures heap[i].addr in majors
    ensures var rec := majors[heap[i].addr];
            MajorsLinked(SetMajPrev(SetMajNext(majors, rec.prev, rec.next), rec.next, rec.prev), WithoutMaj(heap, i))
  {
    hide HeapOk;
    var h, rec := WithoutMaj(heap, i), majors[heap[i].addr];
    var m' := SetMajPrev(SetMajNext(majors, rec.prev, rec.next), rec.next, rec.prev);
    forall j | 0 <= j < |h|
      ensures h[j].addr in m' && m'[h[j].addr] == MajorAt(h, j)
    {
      UnlinkedMajor(majors, heap, i, j);
    }
  }

  lemma WithoutMajAt(heap: seq<Maj>, i: nat, j: nat)
    requires i < |heap| && j < |heap| - 1
    ensures WithoutMaj(heap, i)[j] == heap[if j < i then j else j + 1]
  {
  }

  lemma UnlinkedMajor(majors: map<nat, MajorRec>, heap: seq<Maj>, i: nat, j: nat)
    requires HeapOk(heap) && i < |heap| && MajorsLinked(majors, heap) && j < |heap| - 1
    ensures heap[i].addr in majors
    ensures var rec := majors[heap[i].addr];
            var m' := SetMajPrev(SetMajNext(majors, rec.prev, rec.next), rec.next, rec.prev);
            var h := WithoutMaj(heap, i);
            h[j].addr in m' && m'[h[j].addr] == MajorAt(h, j)
  {
    hide HeapOk, WithoutMaj, UsageOf, MajorAt, SetMajNext, SetMajPrev;
    var o := if j < i then j else j + 1;
    MajorsDistinct(heap, o, i);
    MajorNeighbours(heap, i, o);
    WithoutRecord(heap, i, j);
    MajorLinks(heap, i);
    MajorLinks(heap, o);
    MajUnlinkAt(majors, majors[heap[i].addr].prev, majors[heap[i].addr].next, heap[o].addr);
  }

  lemma MajorLinks(heap: seq<Maj>, i: nat)
    requires i < |heap|
    ensures MajorAt(heap, i).prev == MajAddrOr0(heap, i - 1) && MajorAt(heap, i).next == MajAddrOr0(heap, i + 1)
  {
  }

  /** A major has the address of a neighbour of major i exactly if it is that neighbour. */
  lemma MajorNeighbours(heap: seq<Maj>, i: nat, o: nat)
    requires HeapOk(heap) && i < |heap| && o < |heap| && o != i
    ensures heap[o].addr != 0
    ensures heap[o].addr == MajAddrOr0(heap, i - 1) <==> o + 1 == i
    ensures heap[o].addr == MajAddrOr0(heap, i + 1) <==> o == i + 1
    ensures MajAddrOr0(heap, i - 1) == MajAddrOr0(heap, i + 1) ==> MajAddrOr0(heap, i - 1) == 0
  {
    hide HeapOk;
    MajorsDistinct(heap, o, i);
    if i > 0 && o != i - 1 { MajorsDistinct(heap, o, i - 1); }
    if i + 1 < |heap| && o != i + 1 { MajorsDistinct(heap, o, i + 1); }
    if 0 < i && i + 1 < |heap| { MajorsDistinct(heap, i - 1, i + 1); }
  }

  /** The record that a major must have once major i is gone. */
  lemma WithoutRecord(heap: seq<Maj>, i: nat, j: nat)
    requires i < |heap| && j < |heap| - 1
    ensures var o := if j < i then j else j + 1;
            && WithoutMaj(heap, i)[j] == heap[o]
            && MajorAt(WithoutMaj(heap, i), j)
               == if o + 1 == i then MajorAt(heap, o).(next := MajAddrOr0(heap, i + 1))
                  else if o == i + 1 then MajorAt(heap, o).(prev := MajAddrOr0(heap, i - 1))
                  else MajorAt(heap, o)
  {
    hide WithoutMaj, UsageOf;
    WithoutMajAt(heap, i, j);
    if j > 0 { WithoutMajAt(heap, i, j - 1); }
    if j + 1 < |heap| - 1 { WithoutMajAt(heap, i, j + 1); }
  }

  lemma MajUnlinkAt(m: map<nat, MajorRec>, prev: nat, next: nat, x: nat)
    requires prev == next ==> prev == 0
    ensures var m' := SetMajPrev(SetMajNext(m, prev, next), next, prev);
            x in m ==> x in m' && m'[x] == if x == prev != 0 then m[x].(next := next)
                                           else if x == next != 0 then m[x].(prev := prev) else m[x]
  {
  }
}
