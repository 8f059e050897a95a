/**
 malloc, free and realloc over raw memory: records are read and written by address. The ghost field
 `heap` is what the records stand for, and `Valid` says that they do.
 */
module Liballoc {
  import opened LiballocHeaps
  import opened LiballocLinks

  // ---------- alignment information ----------

  function ByteAt(bytes: map<nat, nat>, a: nat): nat
  {
    if a in bytes then bytes[a] else 0
  }

  /** In front of each user pointer lies its distance to the end of the header. */
  ghost predicate TagOk(bytes: map<nat, nat>, addr: nat)
  {
    ByteAt(bytes, UserPtr(addr) - ALIGN_INFO) == UserPtr(addr) - (addr + MINOR_HEADER)
  }

  ghost predicate Tagged(bytes: map<nat, nat>, heap: seq<Maj>)
  {
    forall i, k :: 0 <= i < |heap| && 0 <= k < |heap[i].blocks| ==> TagOk(bytes, heap[i].blocks[k].addr)
  }

  /** The header address that UNALIGN finds; below zero for addresses that are too small. */
  function HeaderOf(bytes: map<nat, nat>, ptr: nat): int
  {
    var diff := if ptr >= ALIGN_INFO then ByteAt(bytes, ptr - ALIGN_INFO) else 0;
    (if diff < ALIGNMENT + ALIGN_INFO then ptr - diff else ptr) - MINOR_HEADER
  }

  /** UNALIGN undoes ALIGN. */
  lemma UnalignAlign(bytes: map<nat, nat>, addr: nat)
    requires TagOk(bytes, addr)
    ensures HeaderOf(bytes, UserPtr(addr)) == addr
  {
  }

  /** Writing the tag of one piece leaves the others alone. */
  lemma TagElsewhere(heap: seq<Maj>, i: nat, k: nat, j: nat, l: nat)
    requires HeapOk(heap) && i < |heap| && k < |heap[i].blocks| && j < |heap| && l < |heap[j].blocks| && (i != j || k != l)
    ensures UserPtr(heap[i].blocks[k].addr) - ALIGN_INFO != UserPtr(heap[j].blocks[l].addr) - ALIGN_INFO
  {
    hide HeapOk;
    PieceHoldsUser(heap, i, k);
    PieceHoldsUser(heap, j, l);
    PiecesDisjoint(heap, i, k, j, l);
  }

  lemma PieceHoldsUser(heap: seq<Maj>, i: nat, k: nat)
    requires HeapOk(heap) && i < |heap| && k < |heap[i].blocks|
    ensures var b := heap[i].blocks[k];
            b.addr + MINOR_HEADER + ALIGN_INFO <= UserPtr(b.addr) && UserPtr(b.addr) + b.req <= EndOf(b)
  {
    hide UserPtr;
    UserPtrFacts(heap[i].blocks[k].addr);
    assert MajOk(heap[i]);
    UserInside(heap[i].blocks, heap[i].addr + MAJOR_HEADER, Top(heap[i]), k);
  }

  // ---------- placing a piece ----------

  /** The records are those of the heap. */
  ghost predicate Records(majors: map<nat, MajorRec>, minors: map<nat, MinorRec>, heap: seq<Maj>)
  {
    HeapOk(heap) && AllMinorsLinked(minors, heap) && OnlyLive(minors, heap) && MajorsLinked(majors, heap)
  }

  lemma MajorHere(majors: map<nat, MajorRec>, minors: map<nat, MinorRec>, heap: seq<Maj>, i: nat)
    requires Records(majors, minors, heap) && i < |heap|
    ensures HeapOk(heap)
    ensures heap[i].addr in majors && heap[i].addr > 0 && majors[heap[i].addr] == MajorAt(heap, i)
  {
    assert MajOk(heap[i]);
  }

  lemma MinorHere(majors: map<nat, MajorRec>, minors: map<nat, MinorRec>, heap: seq<Maj>, i: nat, k: nat)
    requires Records(majors, minors, heap) && i < |heap| && k < |heap[i].blocks|
    ensures var a := heap[i].blocks[k].addr;
            a in minors && a > 0 && minors[a] == MinorAt(heap[i].blocks, k, heap[i].addr)
  {
    AddrNotNull(heap, i, k);
    assert MinorsLinked(minors, heap[i].blocks, heap[i].addr);
  }

  /** A major's record after a piece was added; `first` changes if the piece is the first one. */
  function WithPiece(majors: map<nat, MajorRec>, maj: nat, size: nat, first: nat): map<nat, MajorRec>
    requires maj in majors
  {
    majors[maj := majors[maj].(usage := majors[maj].usage + size + MINOR_HEADER, first := first)]
  }

  /** The gap in front of piece k of a major holds a new piece of this size. */
  ghost predicate Fits(m: Maj, k: nat, size: nat)
  {
    k <= |m.blocks|
    && GapStart(m.blocks, m.addr + MAJOR_HEADER, k) + MINOR_HEADER + size <= GapEnd(m.blocks, Top(m), k)
  }

  ghost predicate NoGap(m: Maj, size: nat)
  {
    forall k: nat :: k <= |m.blocks| ==> !Fits(m, k, size)
  }

  /** The piece that is put at the start of gap k. */
  function NewBlock(m: Maj, k: nat, size: nat, req: nat): Block
    requires k <= |m.blocks|
  {
    Block(GapStart(m.blocks, m.addr + MAJOR_HEADER, k), size, req)
  }

  function HeapWith(heap: seq<Maj>, i: nat, k: nat, size: nat, req: nat): seq<Maj>
    requires i < |heap| && k <= |heap[i].blocks|
  {
    WithBlocks(heap, i, Inserted(heap[i].blocks, k, NewBlock(heap[i], k, size, req)))
  }

  lemma NewHeapOk(heap: seq<Maj>, i: nat, k: nat, size: nat, req: nat)
    requires HeapOk(heap) && i < |heap| && Fits(heap[i], k, size) && req + ALIGNMENT + ALIGN_INFO <= size
    ensures HeapOk(HeapWith(heap, i, k, size, req))
    ensures Allocated(HeapWith(heap, i, k, size, req)) == Allocated(heap)
    ensures InUse(HeapWith(heap, i, k, size, req)) == InUse(heap) + size
    ensures UsageOf(HeapWith(heap, i, k, size, req)[i].blocks) == UsageOf(heap[i].blocks) + size + MINOR_HEADER
  {
    hide BlocksOk, Inserted, UsageOf, InUseOf, Allocated, InUse;
    var bs, b := heap[i].blocks, NewBlock(heap[i], k, size, req);
    assert MajOk(heap[i]);
    InsertOk(bs, heap[i].addr + MAJOR_HEADER, Top(heap[i]), k, b);
    OkWithBlocks(heap, i, Inserted(bs, k, b));
    SumsWithBlocks(heap, i, Inserted(bs, k, b));
    SumInserted(bs, k, b);
  }

  /** The record that a new piece must get. */
  lemma NewRecord(heap: seq<Maj>, i: nat, k: nat, size: nat, req: nat)
    requires i < |heap| && k <= |heap[i].blocks|
    ensures var bs := heap[i].blocks;
            && k < |HeapWith(heap, i, k, size, req)[i].blocks|
            && MinorAt(HeapWith(heap, i, k, size, req)[i].blocks, k, heap[i].addr)
               == MinorRec(AddrOr0(bs, k - 1), AddrOr0(bs, k), heap[i].addr, LIBALLOC_MAGIC, size, req)
            && AddrOr0(HeapWith(heap, i, k, size, req)[i].blocks, 0)
               == if k == 0 then NewBlock(heap[i], k, size, req).addr else AddrOr0(bs, 0)
  {
  }

  /** Linking a piece into its gap gives the records of the heap with that piece. */
  lemma RecordsWithPiece(majors: map<nat, MajorRec>, minors: map<nat, MinorRec>, heap: seq<Maj>, i: nat, k: nat,
                         size: nat, req: nat)
    requires Records(majors, minors, heap) && i < |heap| && Fits(heap[i], k, size) && req + ALIGNMENT + ALIGN_INFO <= size
    ensures heap[i].addr in majors
    ensures var a := NewBlock(heap[i], k, size, req).addr;
            var bs := heap[i].blocks;
            var rec := MinorRec(AddrOr0(bs, k - 1), AddrOr0(bs, k), heap[i].addr, LIBALLOC_MAGIC, size, req);
            Records(WithPiece(majors, heap[i].addr, size, if k == 0 then a else AddrOr0(bs, 0)),
                    LinkIn(minors, a, rec), HeapWith(heap, i, k, size, req))
  {
    hide HeapOk, AllMinorsLinked, OnlyLive, MajorsLinked, LinkIn, MinorAt, UsageOf, InUseOf, Allocated, InUse, Fits, Inserted;
    MajorHere(majors, minors, heap, i);
    FitsRange(heap[i], k, size);
    NewHeapOk(heap, i, k, size, req);
    NewRecord(heap, i, k, size, req);
    var b := NewBlock(heap[i], k, size, req);
    InsertMinor(minors, heap, i, k, b);
    MajorChanged(majors, heap, i, Inserted(heap[i].blocks, k, b));
  }

  lemma FitsRange(m: Maj, k: nat, size: nat)
    requires Fits(m, k, size)
    ensures k <= |m.blocks|
  {
  }

  class Allocator {
    var majors: map<nat, MajorRec>
    var minors: map<nat, MinorRec>
    /** The bytes of memory that are not part of headers. */
    var bytes: map<nat, nat>
    var memRoot: nat
    var bestBet: nat
    var totalAllocated: nat
    var totalInuse: nat
    var warningCount: nat
    var errorCount: nat
    var possibleOverruns: nat
    ghost var heap: seq<Maj>

    /** All but the rule that no major is empty. */
    ghost predicate Core()
      reads this
    {
      && Records(majors, minors, heap) && Tagged(bytes, heap)
      && memRoot == MajAddrOr0(heap, 0)
      && (bestBet == 0 || IsMajor(heap, bestBet))
      && totalAllocated == Allocated(heap) && totalInuse == InUse(heap)
    }

    ghost predicate Valid()
      reads this
    {
      Core() && NoneEmpty(heap)
    }

    constructor ()
      ensures Valid() && heap == [] && totalAllocated == 0 && totalInuse == 0
    {
      majors, minors, bytes := map[], map[], map[];
      memRoot, bestBet, totalAllocated, totalInuse := 0, 0, 0, 0;
      warningCount, errorCount, possibleOverruns := 0, 0, 0;
      heap := [];
    }

    // ---------- the five cases ----------

    /** CASE 2: the first piece of a new major. */
    method PlaceFirst(maj: nat, size: nat, req: nat) returns (min: nat)
      requires maj in majors
      modifies this`minors, this`majors, this`totalInuse
      ensures min == maj + MAJOR_HEADER && totalInuse == old(totalInuse) + size
      ensures minors == LinkIn(old(minors), min, MinorRec(0, 0, maj, LIBALLOC_MAGIC, size, req))
      ensures majors == WithPiece(old(majors), maj, size, min)
    {
      min := maj + MAJOR_HEADER;
      minors := minors[min := MinorRec(0, 0, maj, LIBALLOC_MAGIC, size, req)];
      majors := majors[maj := majors[maj].(first := min, usage := majors[maj].usage + size + MINOR_HEADER)];
      totalInuse := totalInuse + size;
    }

    /** CASE 3: in front of the first piece. */
    method PlaceFront(maj: nat, size: nat, req: nat) returns (min: nat)
      requires maj in majors && majors[maj].first in minors && majors[maj].first != 0
      requires majors[maj].first != maj + MAJOR_HEADER
      modifies this`minors, this`majors, this`totalInuse
      ensures min == maj + MAJOR_HEADER && totalInuse == old(totalInuse) + size
      ensures minors == LinkIn(old(minors), min, MinorRec(0, old(majors)[maj].first, maj, LIBALLOC_MAGIC, size, req))
      ensures majors == WithPiece(old(majors), maj, size, min)
    {
      var first := majors[maj].first;
      min := maj + MAJOR_HEADER;
      minors := minors[first := minors[first].(prev := min)];
      minors := minors[min := MinorRec(0, first, maj, LIBALLOC_MAGIC, size, req)];
      majors := majors[maj := majors[maj].(first := min, usage := majors[maj].usage + size + MINOR_HEADER)];
      totalInuse := totalInuse + size;
    }

    /** CASE 4.1: behind the last piece. */
    method PlaceBehind(maj: nat, last: nat, size: nat, req: nat) returns (min: nat)
      requires maj in majors && last in minors && last != 0
      modifies this`minors, this`majors, this`totalInuse
      ensures min == last + MINOR_HEADER + old(minors)[last].size && totalInuse == old(totalInuse) + size
      ensures minors == LinkIn(old(minors), min, MinorRec(last, 0, maj, LIBALLOC_MAGIC, size, req))
      ensures majors == WithPiece(old(majors), maj, size, old(majors)[maj].first)
    {
      min := last + MINOR_HEADER + minors[last].size;
      minors := minors[last := minors[last].(next := min)];
      minors := minors[min := MinorRec(last, 0, maj, LIBALLOC_MAGIC, size, req)];
      majors := majors[maj := majors[maj].(usage := majors[maj].usage + size + MINOR_HEADER)];
      totalInuse := totalInuse + size;
    }

    /** CASE 4.2: between two pieces. */
    method PlaceBetween(maj: nat, min: nat, size: nat, req: nat) returns (newMin: nat)
      requires maj in majors && min in minors && min != 0 && minors[min].next in minors && minors[min].next != 0
      requires minors[min].next != min && minors[min].next != min + MINOR_HEADER + minors[min].size
      modifies this`minors, this`majors, this`totalInuse
      ensures newMin == min + MINOR_HEADER + old(minors)[min].size && totalInuse == old(totalInuse) + size
      ensures minors == LinkIn(old(minors), newMin, MinorRec(min, old(minors)[min].next, maj, LIBALLOC_MAGIC, size, req))
      ensures majors == WithPiece(old(majors), maj, size, old(majors)[maj].first)
    {
      var next := minors[min].next;
      newMin := min + MINOR_HEADER + minors[min].size;
      minors := minors[newMin := MinorRec(min, next, maj, LIBALLOC_MAGIC, size, req)];
      minors := minors[next := minors[next].(prev := newMin)];
      minors := minors[min := minors[min].(next := newMin)];
      majors := majors[maj := majors[maj].(usage := majors[maj].usage + size + MINOR_HEADER)];
      totalInuse := totalInuse + size;
    }

    // ---------- one major ----------

    /** ALIGN: stores the distance in front of the user's pointer. */
    method Align(min: nat) returns (p: nat)
      modifies this`bytes
      ensures p == UserPtr(min) && bytes == old(bytes)[p - ALIGN_INFO := p - (min + MINOR_HEADER)]
    {
      p := min + MINOR_HEADER;
      p := p + ALIGN_INFO;
      var diff := p % ALIGNMENT;
      if diff != 0 {
        diff := ALIGNMENT - diff;
        p := p + diff;
      }
      bytes := bytes[p - ALIGN_INFO := diff + ALIGN_INFO];
    }

    /** What the heap is after a piece was put into gap k of major i. */
    ghost method Commit(i: nat, k: nat, size: nat, req: nat, bytes0: map<nat, nat>)
      requires i < |heap| && Fits(heap[i], k, size) && k <= |heap[i].blocks| && req + ALIGNMENT + ALIGN_INFO <= size
      requires HeapOk(heap) && Records(majors, minors, HeapWith(heap, i, k, size, req)) && Tagged(bytes0, heap)
      requires memRoot == MajAddrOr0(heap, 0) && (bestBet == 0 || IsMajor(heap, bestBet))
      requires totalAllocated == Allocated(heap) && totalInuse == InUse(heap) + size
      requires var p := UserPtr(NewBlock(heap[i], k, size, req).addr);
               bytes == bytes0[p - ALIGN_INFO := p - (NewBlock(heap[i], k, size, req).addr + MINOR_HEADER)]
      modifies this`heap
      ensures heap == HeapWith(old(heap), i, k, size, req) && Core()
    {
      hide Records, HeapOk, Tagged, Allocated, InUse, Fits, UserPtr;
      NewHeapOk(heap, i, k, size, req);
      NewTagged(heap, i, k, size, req, bytes0, bytes);
      SameMajors(heap, i, k, size, req, bestBet);
      heap := HeapWith(heap, i, k, size, req);
    }

    /** Looks for a gap in major i that holds the piece, from the front; 0 if there is none. */
    method TryMajor(maj: nat, size: nat, req: nat, ghost i: nat) returns (p: nat, ghost k: nat)
      requires Core() && i < |heap| && maj == heap[i].addr && req + ALIGNMENT + ALIGN_INFO <= size
      requires MAJOR_HEADER + UsageOf(heap[i].blocks) + size + MINOR_HEADER <= heap[i].pages * PAGE_SIZE
      modifies this`minors, this`majors, this`totalInuse, this`bytes, this`heap
      ensures Core()
      ensures p == 0 ==> heap == old(heap) && NoGap(heap[i], size) && heap[i].blocks != [] && bytes == old(bytes)
      ensures p == 0 ==> majors == old(majors) && minors == old(minors)
      ensures p != 0 ==> PlacedIn(old(heap), heap, i, k, size, req, p) && OnlyTag(old(bytes), bytes, p)
      ensures p != 0 ==> forall j: nat :: j < k ==> !Fits(old(heap)[i], j, size)
    {
      hide Records, HeapOk, Tagged, Allocated, InUse, Fits, UserPtr, UsageOf, NoGap, LinkIn, HeapWith, MinorAt;
      k := 0;
      MajorHere(majors, minors, heap, i);
      ghost var bytes0 := bytes;
      if majors[maj].first == 0 {
        EmptyFits(heap, i, size);
        ClaimGap(i, 0, size, req);
        var min := PlaceFirst(maj, size, req);
        p := Align(min);
        Commit(i, 0, size, req, bytes0);
        return;
      }
      FirstThere(heap, i);
      MinorHere(majors, minors, heap, i, 0);
      FirstBehind(heap, i);
      if majors[maj].first - maj - MAJOR_HEADER >= size + MINOR_HEADER {
        FrontFits(heap, i, size);
        ClaimGap(i, 0, size, req);
        var min := PlaceFront(maj, size, req);
        p := Align(min);
        Commit(i, 0, size, req, bytes0);
        return;
      }
      FrontFull(heap, i, size);
      p, k := TryBehind(maj, size, req, i);
    }
  
    /** Prepares linking: the records that placing will give. */
    lemma ClaimGap(i: nat, k: nat, size: nat, req: nat)
      requires Core() && i < |heap| && Fits(heap[i], k, size) && req + ALIGNMENT + ALIGN_INFO <= size
      ensures k <= |heap[i].blocks| && heap[i].addr in majors
      ensures var a := NewBlock(heap[i], k, size, req).addr;
              var bs := heap[i].blocks;
              var rec := MinorRec(AddrOr0(bs, k - 1), AddrOr0(bs, k), heap[i].addr, LIBALLOC_MAGIC, size, req);
              Records(WithPiece(majors, heap[i].addr, size, if k == 0 then a else AddrOr0(bs, 0)),
                      LinkIn(minors, a, rec), HeapWith(heap, i, k, size, req))
    {
      hide Records, Fits, HeapWith, LinkIn;
      FitsRange(heap[i], k, size);
      RecordsWithPiece(majors, minors, heap, i, k, size, req);
    }

    /** CASES 4.1 and 4.2: the gaps behind each piece. */
    method TryBehind(maj: nat, size: nat, req: nat, ghost i: nat) returns (p: nat, ghost k: nat)
      requires Core() && i < |heap| && maj == heap[i].addr && req + ALIGNMENT + ALIGN_INFO <= size
      requires |heap[i].blocks| > 0 && !Fits(heap[i], 0, size)
      modifies this`minors, this`majors, this`totalInuse, this`bytes, this`heap
      ensures Core()
      ensures p == 0 ==> heap == old(heap) && NoGap(heap[i], size) && bytes == old(bytes)
      ensures p == 0 ==> majors == old(majors) && minors == old(minors)
      ensures p != 0 ==> PlacedIn(old(heap), heap, i, k, size, req, p) && OnlyTag(old(bytes), bytes, p)
      ensures p != 0 ==> forall j: nat :: j < k ==> !Fits(old(heap)[i], j, size)
    {
      hide Records, HeapOk, Tagged, Allocated, InUse, Fits, UserPtr, UsageOf, NoGap, LinkIn, HeapWith, MinorAt;
      MajorHere(majors, minors, heap, i);
      MajorFields(heap, i);
      ghost var n := |heap[i].blocks|;
      var min := majors[maj].first;
      k := 0;
      while min != 0
        invariant Core() && heap == old(heap) && bytes == old(bytes) && majors == old(majors) && minors == old(minors)
        invariant totalInuse == old(totalInuse)
        invariant k <= n && min == AddrOr0(heap[i].blocks, k)
        invariant forall j: nat :: j <= k && j <= n ==> !Fits(heap[i], j, size)
        decreases n - k
      {
        MinorExists(heap, i, k);
        MinorHere(majors, minors, heap, i, k);
        RecordLinks(heap[i].blocks, k, maj);
        GapBehind(heap, i, k, size);
        if minors[min].next == 0 {
          var diff := maj + majors[maj].size - min - MINOR_HEADER - minors[min].size;
          if diff >= size + MINOR_HEADER {
            p := PutBehind(maj, min, size, req, i, k);
            k := k + 1;
            return;
          }
        }
        if minors[min].next != 0 {
          var diff := minors[min].next - min - MINOR_HEADER - minors[min].size;
          if diff >= size + MINOR_HEADER {
            p := PutBetween(maj, min, size, req, i, k);
            k := k + 1;
            return;
          }
        }
        min := minors[min].next;
        k := k + 1;
      }
      p := 0;
      NullIsEnd(heap, i, k);
      AllGapsTooSmall(heap[i], size, k);
    }

    method PutBehind(maj: nat, min: nat, size: nat, req: nat, ghost i: nat, ghost k: nat) returns (p: nat)
      requires Core() && i < |heap| && maj == heap[i].addr && req + ALIGNMENT + ALIGN_INFO <= size
      requires k + 1 == |heap[i].blocks| && min == heap[i].blocks[k].addr && Fits(heap[i], k + 1, size)
      modifies this`minors, this`majors, this`totalInuse, this`bytes, this`heap
      ensures Core() && PlacedIn(old(heap), heap, i, k + 1, size, req, p) && OnlyTag(old(bytes), bytes, p) && p != 0
    {
      hide Records, HeapOk, Tagged, Allocated, InUse, Fits, UserPtr, UsageOf, LinkIn, HeapWith, MinorAt;
      ghost var bytes0 := bytes;
      MajorHere(majors, minors, heap, i);
      MajorFields(heap, i);
      MinorHere(majors, minors, heap, i, k);
      RecordLinks(heap[i].blocks, k, maj);
      ClaimGap(i, k + 1, size, req);
      var newMin := PlaceBehind(maj, min, size, req);
      p := Align(newMin);
      Commit(i, k + 1, size, req, bytes0);
    }

    method PutBetween(maj: nat, min: nat, size: nat, req: nat, ghost i: nat, ghost k: nat) returns (p: nat)
      requires Core() && i < |heap| && maj == heap[i].addr && req + ALIGNMENT + ALIGN_INFO <= size
      requires k + 1 < |heap[i].blocks| && min == heap[i].blocks[k].addr && Fits(heap[i], k + 1, size)
      modifies this`minors, this`majors, this`totalInuse, this`bytes, this`heap
      ensures Core() && PlacedIn(old(heap), heap, i, k + 1, size, req, p) && OnlyTag(old(bytes), bytes, p) && p != 0
    {
      hide Records, HeapOk, Tagged, Allocated, InUse, Fits, UserPtr, UsageOf, LinkIn, HeapWith, MinorAt;
      ghost var bytes0 := bytes;
      MajorHere(majors, minors, heap, i);
      MajorFields(heap, i);
      MinorHere(majors, minors, heap, i, k);
      MinorHere(majors, minors, heap, i, k + 1);
      RecordLinks(heap[i].blocks, k, maj);
      NextDiffers(heap, i, k, size);
      ClaimGap(i, k + 1, size, req);
      var newMin := PlaceBetween(maj, min, size, req);
      p := Align(newMin);
      Commit(i, k + 1, size, req, bytes0);
    }

    // ---------- system blocks ----------

    /** Takes a block from the system; `answer` is the address the system gives, 0 for none. */
    method AllocateNewPage(size: nat, answer: nat) returns (maj: nat)
      modifies this`majors, this`totalAllocated, this`warningCount
      ensures maj == answer
      ensures answer == 0 ==> majors == old(majors) && totalAllocated == old(totalAllocated)
      ensures answer != 0 ==>
                && majors == old(majors)[answer := MajorRec(0, 0, PagesFor(size), PagesFor(size) * PAGE_SIZE, MAJOR_HEADER, 0)]
                && totalAllocated == old(totalAllocated) + PagesFor(size) * PAGE_SIZE
    {
      var st := size + MAJOR_HEADER;
      st := st + MINOR_HEADER;
      if st % PAGE_SIZE == 0 {
        st := st / PAGE_SIZE;
      } else {
        st := st / PAGE_SIZE + 1;
      }
      if st < MIN_PAGES {
        st := MIN_PAGES;
      }
      maj := answer;
      if maj == 0 {
        warningCount := warningCount + 1;
        return;
      }
      majors := majors[maj := MajorRec(0, 0, st, st * PAGE_SIZE, MAJOR_HEADER, 0)];
      totalAllocated := totalAllocated + st * PAGE_SIZE;
    }

    /** The first major of all. */
    method GrowRoot(size: nat, answer: nat)
      requires Core() && heap == [] && SystemAnswer(heap, answer, size)
      modifies this`majors, this`totalAllocated, this`warningCount, this`memRoot, this`heap
      ensures Core() && memRoot == answer
      ensures heap == if answer == 0 then [] else [Maj(answer, PagesFor(size), [])]
    {
      hide Allocated, InUse, PagesFor;
      memRoot := AllocateNewPage(size, answer);
      if memRoot != 0 {
        NewMajOk(answer, size);
        AppendFacts(majors, old(majors), minors, bytes, [], Maj(answer, PagesFor(size), []));
        heap := [Maj(answer, PagesFor(size), [])];
        assert [] + heap == heap;
      }
    }

    /** A new major behind the last one. */
    method Grow(maj: nat, size: nat, answer: nat) returns (next: nat)
      requires Core() && |heap| > 0 && maj == heap[|heap| - 1].addr && SystemAnswer(heap, answer, size)
      modifies this`majors, this`totalAllocated, this`warningCount, this`heap
      ensures Core() && next == answer
      ensures heap == if answer == 0 then old(heap) else old(heap) + [Maj(answer, PagesFor(size), [])]
    {
      hide Records, HeapOk, Tagged, Allocated, InUse, PagesFor, MajorAt, IsMajor;
      ghost var n := |heap| - 1;
      ghost var new' := Maj(answer, PagesFor(size), []);
      ghost var majors0 := majors;
      MajorHere(majors, minors, heap, n);
      MajorFields(heap, n);
      next := AllocateNewPage(size, answer);
      majors := majors[maj := majors[maj].(next := next)];
      if next == 0 {
        assert majors == majors0;
        return;
      }
      NewMajOk(answer, size);
      LastDiffers(heap, new');
      majors := majors[next := majors[next].(prev := maj)];
      AppendFacts(majors, majors0, minors, bytes, heap, new');
      StillMajor(heap, new', bestBet);
      heap := heap + [new'];
    }

    // ---------- malloc ----------

    /** Free bytes of the major at this address. */
    method FreeIn(maj: nat, ghost i: nat) returns (diff: nat)
      requires Core() && i < |heap| && maj == heap[i].addr
      ensures maj in majors && diff == heap[i].pages * PAGE_SIZE - (MAJOR_HEADER + UsageOf(heap[i].blocks))
    {
      hide UsageOf, Allocated, InUse, Tagged;
      MajorHere(majors, minors, heap, i);
      MajorFields(heap, i);
      UsageWithin(heap, i);
      diff := majors[maj].size - majors[maj].usage;
    }

    /** Where the search starts: at the best bet if that has enough free bytes, else at the root. */
    method StartAt(size: nat) returns (maj: nat, startedBet: bool, bestSize: nat, ghost i: nat)
      requires Core() && |heap| > 0
      ensures i < |heap| && maj == heap[i].addr && (!startedBet ==> i == 0)
    {
      hide Records, Tagged, Allocated, InUse, UsageOf;
      maj, startedBet, bestSize, i := memRoot, false, 0, 0;
      if bestBet != 0 {
        ghost var b :| 0 <= b < |heap| && heap[b].addr == bestBet;
        bestSize := FreeIn(bestBet, b);
        if bestSize > size + MINOR_HEADER {
          maj, startedBet, i := bestBet, true, b;
        }
      }
    }

    lemma RootFacts()
      requires Core()
      ensures memRoot == 0 <==> heap == []
      ensures heap == [] ==> bestBet == 0
      ensures HeapOk(heap)
    {
      hide Tagged, Allocated, InUse;
      if heap != [] {
        MajorHere(majors, minors, heap, 0);
      }
    }

    /** Remembers a major with more free bytes than the best bet. */
    method NoteBest(maj: nat, diff: nat, bestSize0: nat, ghost i: nat) returns (bestSize: nat)
      requires Core() && i < |heap| && maj == heap[i].addr
      modifies this`bestBet
      ensures Core()
    {
      hide Records, Tagged, Allocated, InUse;
      bestSize := bestSize0;
      if bestSize < diff {
        bestBet := maj;
        bestSize := diff;
      }
    }

    method NextMajor(maj: nat, ghost i: nat) returns (next: nat)
      requires Core() && i < |heap| && maj == heap[i].addr
      ensures if i + 1 < |heap| then next == heap[i + 1].addr && next != 0 else next == 0
    {
      hide Tagged, Allocated, InUse, MajorAt;
      MajorHere(majors, minors, heap, i);
      MajorFields(heap, i);
      if i + 1 < |heap| {
        MajorHere(majors, minors, heap, i + 1);
      }
      next := majors[maj].next;
    }

    /** CASE 2 for a major that is new: it has room. */
    method PlaceNew(maj: nat, size: nat, req: nat, bestSize: nat, note: bool, answer: nat, ghost heap0: seq<Maj>)
      returns (p: nat, ghost k: nat)
      requires Core() && heap == heap0 + [Maj(answer, PagesFor(size), [])] && maj == answer
      requires req + ALIGNMENT + ALIGN_INFO <= size
      modifies this`minors, this`majors, this`totalInuse, this`bytes, this`heap, this`bestBet
      ensures Core() && p != 0 && PlacedIn(heap0 + [Maj(answer, PagesFor(size), [])], heap, |heap0|, k, size, req, p)
      ensures OnlyTag(old(bytes), bytes, p)
    {
      hide Records, Tagged, Allocated, InUse, PlacedIn, OnlyTag, PagesFor, NoGap;
      ghost var i := |heap0|;
      NewHasRoom(heap, i, size, answer);
      if note {
        var diff := FreeIn(maj, i);
        var best := NoteBest(maj, diff, bestSize, i);
      }
      p, k := TryMajor(maj, size, req, i);
    }

    /** Allocates req bytes; 0 only if no major has a gap and the system gives no memory. The system is
        asked only if no major has a gap. */
    method Malloc(req: nat, answer: nat) returns (p: nat, ghost i: nat, ghost k: nat)
      requires Valid() && SystemAnswer(heap, answer, req + ALIGNMENT + ALIGN_INFO)
      modifies this
      ensures Valid()
      ensures p == 0 ==> answer == 0 && heap == old(heap) && bytes == old(bytes) && NoGapAnywhere(heap, req + 32)
      ensures p != 0 ==> Served(old(heap), heap, i, k, req + 32, req, p, answer) && OnlyTag(old(bytes), bytes, p)
    {
      hide Core, NoGap, PagesFor, PlacedIn, OnlyTag, NoneEmpty, NoGapAnywhere, SystemAnswer;
      ghost var heap0 := heap;
      var size := req + ALIGNMENT + ALIGN_INFO;
      RootFacts();
      if memRoot == 0 {
        NothingToSearch(size);
        GrowRoot(size, answer);
        p, i, k := 0, 0, 0;
        if memRoot == 0 {
          return;
        }
        assert heap0 + heap == heap;
        p, k := PlaceNew(memRoot, size, req, 0, true, answer, heap0);
        ServedNew(heap0, heap, k, size, req, p, answer);
        return;
      }
      p, i, k := Search(size, req, answer);
    }

    /** The search through the majors. */
    method Search(size: nat, req: nat, answer: nat) returns (p: nat, ghost i: nat, ghost k: nat)
      requires Valid() && |heap| > 0 && SystemAnswer(heap, answer, size) && size == req + ALIGNMENT + ALIGN_INFO
      modifies this
      ensures Valid()
      ensures p == 0 ==> answer == 0 && heap == old(heap) && bytes == old(bytes) && NoGapAnywhere(heap, size)
      ensures p != 0 ==> Served(old(heap), heap, i, k, size, req, p, answer) && OnlyTag(old(bytes), bytes, p)
    {
      hide Core, NoGap, PagesFor, PlacedIn, OnlyTag, NoneEmpty, NoGapAnywhere, SystemAnswer, Served;
      ghost var heap0 := heap;
      k := 0;
      var maj, startedBet, bestSize;
      maj, startedBet, bestSize, i := StartAt(size);
      while true
        invariant Core() && heap == heap0 && bytes == old(bytes) && NoneEmpty(heap)
        invariant i < |heap| && maj == heap[i].addr
        invariant !startedBet ==> forall j :: 0 <= j < i ==> NoGap(heap[j], size)
        decreases if startedBet then 1 else 0, |heap| - i
      {
        var diff := FreeIn(maj, i);
        bestSize := NoteBest(maj, diff, bestSize, i);
        if diff < size + MINOR_HEADER {
          // CASE 1
          FullMajor(i, size, diff);
        } else {
          p, k := TryMajor(maj, size, req, i);
          if p != 0 {
            ServedHere(heap0, heap, i, k, size, req, p, answer);
            return;
          }
        }
        // CASE 1 or 5: another major?
        var next := NextMajor(maj, i);
        if next != 0 {
          maj, i := next, i + 1;
        } else if startedBet {
          maj := Root();
          startedBet, i := false, 0;
        } else {
          WholeSearched(heap0, i, size);
          next := Grow(maj, size, answer);
          if next == 0 {
            p := 0;
            return;
          }
          p, k := PlaceNew(next, size, req, bestSize, diff >= size + MINOR_HEADER, answer, heap0);
          ServedNew(heap0, heap, k, size, req, p, answer);
          i := |heap0|;
          return;
        }
      }
    }

    method Root() returns (maj: nat)
      requires Core() && |heap| > 0
      ensures maj == heap[0].addr
    {
      maj := memRoot;
    }

    lemma NothingToSearch(size: nat)
      requires heap == []
      ensures NoGapAnywhere(heap, size) && NoneEmpty(heap)
    {
    }

    lemma FullMajor(i: nat, size: nat, diff: nat)
      requires Core() && i < |heap| && diff < size + MINOR_HEADER
      requires diff == heap[i].pages * PAGE_SIZE - (MAJOR_HEADER + UsageOf(heap[i].blocks))
      ensures NoGap(heap[i], size)
    {
      hide UsageOf, BlocksOk, Tagged, Allocated, InUse;
      RootFacts();
      assert MajOk(heap[i]);
      var m := heap[i];
      forall k: nat | k <= |m.blocks|
        ensures !Fits(m, k, size)
      {
        NoGapWhenFull(m.blocks, m.addr + MAJOR_HEADER, Top(m), k, size + MINOR_HEADER);
      }
    }

    // ---------- free ----------

    /** Takes a piece out of its list and its major's totals. */
    method Unlink(min: nat, maj: nat)
      requires min in minors && maj in majors && minors[min].block == maj && totalInuse >= minors[min].size
      requires majors[maj].usage >= minors[min].size + MINOR_HEADER
      requires minors[min].next != 0 ==> minors[min].next in minors
      requires minors[min].prev != 0 ==> minors[min].prev in minors
      modifies this`minors, this`majors, this`totalInuse
      ensures totalInuse == old(totalInuse) - old(minors)[min].size
      ensures minors == LinkOut(old(minors), min)
      ensures majors == WithoutPiece(old(majors), maj, old(minors)[min])
    {
      var rec := minors[min];
      totalInuse := totalInuse - rec.size;
      majors := majors[maj := majors[maj].(usage := majors[maj].usage - (rec.size + MINOR_HEADER))];
      minors := minors[min := minors[min].(magic := LIBALLOC_DEAD)];
      if rec.next != 0 {
        minors := minors[rec.next := minors[rec.next].(prev := rec.prev)];
      }
      if rec.prev != 0 {
        minors := minors[rec.prev := minors[rec.prev].(next := rec.next)];
      }
      if rec.prev == 0 {
        majors := majors[maj := majors[maj].(first := rec.next)];
      }
    }

    /** Gives an empty major back to the system. */
    method Release(maj: nat, ghost i: nat)
      requires Records(majors, minors, heap) && Tagged(bytes, heap) && i < |heap| && maj == heap[i].addr && heap[i].blocks == []
      requires memRoot == MajAddrOr0(heap, 0) && (bestBet == 0 || IsMajor(heap, bestBet))
      requires totalAllocated == Allocated(heap) && totalInuse == InUse(heap)
      modifies this`majors, this`memRoot, this`bestBet, this`totalAllocated, this`heap
      ensures Core() && heap == WithoutMaj(old(heap), i)
    {
      hide Records, HeapOk, Tagged, Allocated, InUse, MajorAt, WithoutMaj, IsMajor, SetMajNext, SetMajPrev;
      MajorHere(majors, minors, heap, i);
      MajorFields(heap, i);
      ReleaseFacts(majors, minors, bytes, heap, i);
      RootAfter(heap, i);
      BestAfter(heap, i, bestBet);
      var rec := majors[maj];
      if memRoot == maj { memRoot := rec.next; }
      if bestBet == maj { bestBet := 0; }
      SetMajMaps(majors, rec.prev, rec.next);
      if rec.prev != 0 && rec.prev in majors {
        majors := majors[rec.prev := majors[rec.prev].(next := rec.next)];
      }
      if rec.next != 0 && rec.next in majors {
        majors := majors[rec.next := majors[rec.next].(prev := rec.prev)];
      }
      totalAllocated := totalAllocated - rec.size;
      heap := WithoutMaj(heap, i);
    }

    /** A freed piece may make its major the best bet. */
    method CompareBest(maj: nat, ghost m: nat)
      requires Core() && m < |heap| && maj == heap[m].addr
      modifies this`bestBet
      ensures Core()
    {
      hide Records, Tagged, Allocated, InUse, UsageOf;
      if bestBet != 0 {
        ghost var b :| 0 <= b < |heap| && heap[b].addr == bestBet;
        var bestSize := FreeIn(bestBet, b);
        var majSize := FreeIn(maj, m);
        if majSize > bestSize {
          bestBet := maj;
        }
      }
    }

    method CountWarning()
      requires Core()
      modifies this`warningCount
      ensures Core() && warningCount == old(warningCount) + 1
    {
      hide Records, Tagged, Allocated, InUse;
      warningCount := warningCount + 1;
    }

    /** Counts a pointer that is none, and whether its magic number looks overwritten. */
    method BadPointer(magic: nat)
      requires Core()
      modifies this`errorCount, this`possibleOverruns
      ensures Core() && errorCount == old(errorCount) + 1
    {
      hide Records, Tagged, Allocated, InUse;
      errorCount := errorCount + 1;
      if magic % 0x100_0000 == LIBALLOC_MAGIC % 0x100_0000 || magic % 0x1_0000 == LIBALLOC_MAGIC % 0x1_0000
         || magic % 0x100 == LIBALLOC_MAGIC % 0x100 {
        possibleOverruns := possibleOverruns + 1;
      }
    }

    /** The header of a pointer, if it is one of a live piece. */
    method LiveHeader(ptr: nat) returns (live: bool, min: nat, magic: nat, ghost i: nat, ghost k: nat)
      requires Core()
      ensures live <==> HeaderOf(bytes, ptr) >= 0 && IsLive(heap, HeaderOf(bytes, ptr))
      ensures live ==> min == HeaderOf(bytes, ptr) && min in minors && i < |heap| && k < |heap[i].blocks| && heap[i].blocks[k].addr == min
      ensures live ==> minors[min] == MinorAt(heap[i].blocks, k, heap[i].addr)
    {
      hide Tagged, Allocated, InUse, MajorAt, MajorsLinked, MinorsLinked, HeapOk;
      var diff := if ptr >= ALIGN_INFO && ptr - ALIGN_INFO in bytes then bytes[ptr - ALIGN_INFO] else 0;
      var h: int := ptr;
      if diff < ALIGNMENT + ALIGN_INFO {
        h := ptr - diff;
      }
      h := h - MINOR_HEADER;
      min, magic, i, k := 0, 0, 0, 0;
      if h >= 0 && h in minors {
        magic := minors[h].magic;
      }
      live := magic == LIBALLOC_MAGIC;
      if live {
        min := h;
        i, k := FindLive(heap, min);
        MinorHere(majors, minors, heap, i, k);
      } else if h >= 0 && IsLive(heap, h) {
        ghost var j, l := FindLive(heap, h);
        MinorHere(majors, minors, heap, j, l);
        RecordLinks(heap[j].blocks, l, heap[j].addr);
      }
    }

    /** Frees a live piece; anything else is an error and changes nothing but counters. */
    method Free(ptr: nat)
      requires Valid()
      modifies this
      ensures Valid() && bytes == old(bytes)
      ensures var h := HeaderOf(old(bytes), ptr);
              if ptr == 0 then heap == old(heap) && warningCount == old(warningCount) + 1
              else if h < 0 || !IsLive(old(heap), h) then heap == old(heap) && errorCount == old(errorCount) + 1
              else FreedPiece(old(heap), heap, h)
    {
      hide Core, IsLive, NoneEmpty, MinorAt, FreedPiece;
      if ptr == 0 {
        CountWarning();
        return;
      }
      var live, min, magic;
      ghost var i, k;
      live, min, magic, i, k := LiveHeader(ptr);
      if !live {
        BadPointer(magic);
        return;
      }
      PieceFreed(heap, i, k);
      FreeLive(min, i, k);
    }

    method FreeLive(min: nat, ghost i: nat, ghost k: nat)
      requires Valid() && i < |heap| && k < |heap[i].blocks| && min == heap[i].blocks[k].addr
      modifies this`minors, this`majors, this`totalInuse, this`totalAllocated, this`memRoot, this`bestBet, this`heap
      ensures Valid() && heap == Freed(old(heap), i, k)
    {
      hide Records, HeapOk, Tagged, Allocated, InUse, InUseOf, UsageOf, MinorAt, MajorAt, IsMajor, NoneEmpty;
      MinorHere(majors, minors, heap, i, k);
      RecordLinks(heap[i].blocks, k, heap[i].addr);
      var maj := minors[min].block;
      FreeSums(heap, i, k);
      FreeTagged(bytes, heap, i, k);
      FreeEmpty(heap, i, k);
      ghost var h := WithBlocks(heap, i, Removed(heap[i].blocks, k));
      FreeMajors(heap, i, k, bestBet);
      MajorHere(majors, minors, heap, i);
      MajorFields(heap, i);
      RemoveFacts(majors, minors, heap, i, k);
      NeighbourRecords(majors, minors, heap, i, k);
      Unlink(min, maj);
      heap := h;
      MajorHere(majors, minors, heap, i);
      MajorFields(heap, i);
      NullIsEnd(heap, i, 0);
      if majors[maj].first == 0 {
        Release(maj, i);
        SameWithout(old(heap), i, h);
      } else {
        CompareBest(maj, i);
      }
    }

    // ---------- realloc ----------

    /** liballoc_memcpy: four bytes at a time, then the rest. */
    method MemCopy(dst: nat, src: nat, n: nat)
      requires dst + n <= src || src + n <= dst
      modifies this`bytes
      ensures Copied(old(bytes), bytes, dst, src, n)
    {
      hide Copied, ByteAt;
      NothingCopied(bytes, dst, src);
      ghost var b0 := bytes;
      var i := 0;
      while n - i >= 4
        invariant i <= n && Copied(b0, bytes, dst, src, i)
      {
        var w0, w1, w2, w3 := ByteAt(bytes, src + i), ByteAt(bytes, src + i + 1), ByteAt(bytes, src + i + 2), ByteAt(bytes, src + i + 3);
        ghost var b := bytes;
        NotYetWritten(b0, b, dst, src, i, n);
        bytes := bytes[dst + i := w0][dst + i + 1 := w1][dst + i + 2 := w2][dst + i + 3 := w3];
        CopyByte(b0, b, dst, src, i, w0);
        CopyByte(b0, b[dst + i := w0], dst, src, i + 1, w1);
        CopyByte(b0, b[dst + i := w0][dst + i + 1 := w1], dst, src, i + 2, w2);
        CopyByte(b0, b[dst + i := w0][dst + i + 1 := w1][dst + i + 2 := w2], dst, src, i + 3, w3);
        i := i + 4;
      }
      while i < n
        invariant i <= n && Copied(b0, bytes, dst, src, i)
      {
        NotYetWritten(b0, bytes, dst, src, i, n);
        CopyByte(b0, bytes, dst, src, i, ByteAt(bytes, src + i));
        bytes := bytes[dst + i := ByteAt(bytes, src + i)];
        i := i + 1;
      }
    }

    /** A smaller size only changes what was asked for. */
    method Shrink(min: nat, size: nat, ghost i: nat, ghost k: nat)
      requires Valid() && i < |heap| && k < |heap[i].blocks| && min == heap[i].blocks[k].addr && size <= heap[i].blocks[k].req
      requires min in minors && minors[min] == MinorAt(heap[i].blocks, k, heap[i].addr)
      modifies this`minors, this`heap
      ensures Valid() && heap == Resized(old(heap), i, k, size)
    {
      hide Records, HeapOk, Tagged, Allocated, InUse, UsageOf, InUseOf, IsMajor, NoneEmpty, MinorAt, MajorAt;
      ResizeFacts(majors, minors, bytes, heap, i, k, size, bestBet);
      minors := minors[min := minors[min].(req := size)];
      heap := Resized(heap, i, k, size);
    }

    /** Resizes the allocation at ptr. A larger size moves it: the bytes that were asked for are kept, and
        outside the new piece nothing changes. The pointer must be one that malloc returned, or none of a
        live piece; and the system must have memory, as the code copies to whatever malloc gives it. */
    method Realloc(ptr: nat, size: nat, answer: nat)
      returns (p: nat, ghost moved: seq<Maj>, ghost i: nat, ghost k: nat)
      requires Valid() && SystemAnswer(heap, answer, size + ALIGNMENT + ALIGN_INFO)
      requires var h := HeaderOf(bytes, ptr); h >= 0 && IsLive(heap, h) ==> ptr == UserPtr(h)
      requires var h := HeaderOf(bytes, ptr);
               ptr != 0 && h >= 0 && IsLive(heap, h) && ReqOf(heap, h) < size && answer == 0 ==> !NoGapAnywhere(heap, size + 32)
      modifies this
      ensures Valid()
      ensures var h := HeaderOf(old(bytes), ptr);
              if size == 0 then
                p == 0 && bytes == old(bytes)
                && (ptr != 0 && h >= 0 && IsLive(old(heap), h) ==> FreedPiece(old(heap), heap, h))
              else if ptr == 0 then
                if p == 0 then answer == 0 && heap == old(heap) && bytes == old(bytes) && NoGapAnywhere(heap, size + 32)
                else Served(old(heap), heap, i, k, size + 32, size, p, answer) && OnlyTag(old(bytes), bytes, p)
              else if h < 0 || !IsLive(old(heap), h) then p == 0 && heap == old(heap) && bytes == old(bytes)
              else if ReqOf(old(heap), h) >= size then
                p == ptr && bytes == old(bytes) && ResizedPiece(old(heap), heap, h, size)
              else
                && p != 0 && Served(old(heap), moved, i, k, size + 32, size, p, answer) && FreedPiece(moved, heap, h)
                && Kept(old(bytes), bytes, p, ptr, ReqOf(old(heap), h))
    {
      hide Core, IsLive, NoneEmpty, MinorAt, FreedPiece, Served, OnlyTag, SystemAnswer, Kept, Resized, NoGapAnywhere,
           ReqOf, ResizedPiece, HeaderOf;
      p, moved, i, k := 0, heap, 0, 0;
      if size == 0 {
        Free(ptr);
        return;
      }
      if ptr == 0 {
        p, i, k := Malloc(size, answer);
        return;
      }
      var live, min, magic;
      live, min, magic, i, k := LiveHeader(ptr);
      if !live {
        BadPointer(magic);
        return;
      }
      MajorsOk();
      PieceIs(heap, i, k, size);
      RecordLinks(heap[i].blocks, k, heap[i].addr);
      var realSize := minors[min].req;
      if realSize >= size {
        Shrink(min, size, i, k);
        p := ptr;
        return;
      }
      p, moved, i, k := Move(ptr, min, realSize, size, answer, i, k);
    }

    /** Allocates, copies, frees. */
    method Move(ptr: nat, min: nat, realSize: nat, size: nat, answer: nat, ghost i0: nat, ghost k0: nat)
      returns (p: nat, ghost moved: seq<Maj>, ghost i: nat, ghost k: nat)
      requires Valid() && SystemAnswer(heap, answer, size + ALIGNMENT + ALIGN_INFO)
      requires answer == 0 ==> !NoGapAnywhere(heap, size + 32)
      requires i0 < |heap| && k0 < |heap[i0].blocks| && heap[i0].blocks[k0].addr == min && heap[i0].blocks[k0].req == realSize
      requires ptr == UserPtr(min) && HeaderOf(bytes, ptr) == min && realSize < size
      modifies this
      ensures Valid() && p != 0 && Served(old(heap), moved, i, k, size + 32, size, p, answer) && FreedPiece(moved, heap, min)
      ensures Kept(old(bytes), bytes, p, ptr, realSize)
    {
      hide NoneEmpty, FreedPiece, Served, OnlyTag, SystemAnswer, Kept, NoGapAnywhere, Records, Tagged, Allocated, InUse, IsMajor,
           UserPtr, HeaderOf, Copied;
      ghost var heap0, bytes0 := heap, bytes;
      p, i, k := Malloc(size, answer);
      moved := heap;
      ghost var bytes1 := bytes;
      MajorsOk();
      ghost var j, l := MovedApart(heap0, moved, i, k, size + 32, size, p, answer, i0, k0);
      TagOutside(moved, j, l, i, k);
      MemCopy(p, ptr, realSize);
      CopyKeepsTags(bytes1, bytes, moved, i, k, size, p, ptr, realSize);
      KeptAll(bytes0, bytes1, bytes, p, ptr, realSize);
      TaggedPiece(bytes, moved, j, l);
      Free(ptr);
    }

    lemma MajorsOk()
      requires Core()
      ensures HeapOk(heap)
    {
      hide Tagged, Allocated, InUse;
    }
  }

  // ---------- what the searches look at ----------

  /** A piece was put into gap k of major i, and p is the user's pointer to it. */
  ghost predicate PlacedIn(heap: seq<Maj>, heap': seq<Maj>, i: nat, k: nat, size: nat, req: nat, p: nat)
  {
    && i < |heap| && k <= |heap[i].blocks| && Fits(heap[i], k, size)
    && heap' == HeapWith(heap, i, k, size, req) && p == UserPtr(NewBlock(heap[i], k, size, req).addr)
  }

  /** Outside the headers only the alignment information of p has been written. */
  ghost predicate OnlyTag(bytes: map<nat, nat>, bytes': map<nat, nat>, p: nat)
  {
    p >= ALIGN_INFO && forall x: nat :: x != p - ALIGN_INFO ==> ByteAt(bytes', x) == ByteAt(bytes, x)
  }

  lemma EmptyFits(heap: seq<Maj>, i: nat, size: nat)
    requires HeapOk(heap) && i < |heap| && AddrOr0(heap[i].blocks, 0) == 0
    requires MAJOR_HEADER + UsageOf(heap[i].blocks) + size + MINOR_HEADER <= heap[i].pages * PAGE_SIZE
    ensures heap[i].blocks == [] && Fits(heap[i], 0, size)
  {
    NullIsEnd(heap, i, 0);
  }

  /** No piece lies at address 0, so a null pointer is the end of the list. */
  lemma NullIsEnd(heap: seq<Maj>, i: nat, k: nat)
    requires HeapOk(heap) && i < |heap| && k <= |heap[i].blocks|
    ensures AddrOr0(heap[i].blocks, k) == 0 <==> k == |heap[i].blocks|
  {
    if k < |heap[i].blocks| {
      AddrNotNull(heap, i, k);
    }
  }

  lemma FirstThere(heap: seq<Maj>, i: nat)
    requires HeapOk(heap) && i < |heap| && AddrOr0(heap[i].blocks, 0) != 0
    ensures |heap[i].blocks| > 0
  {
  }

  lemma FirstBehind(heap: seq<Maj>, i: nat)
    requires HeapOk(heap) && i < |heap| && |heap[i].blocks| > 0
    ensures heap[i].blocks[0].addr >= heap[i].addr + MAJOR_HEADER
  {
    assert MajOk(heap[i]);
  }

  lemma FrontFits(heap: seq<Maj>, i: nat, size: nat)
    requires HeapOk(heap) && i < |heap| && |heap[i].blocks| > 0
    requires heap[i].blocks[0].addr - heap[i].addr - MAJOR_HEADER >= size + MINOR_HEADER
    ensures Fits(heap[i], 0, size) && heap[i].blocks[0].addr != heap[i].addr + MAJOR_HEADER
  {
  }

  lemma FrontFull(heap: seq<Maj>, i: nat, size: nat)
    requires i < |heap| && |heap[i].blocks| > 0
    requires heap[i].blocks[0].addr - heap[i].addr - MAJOR_HEADER < size + MINOR_HEADER
    ensures !Fits(heap[i], 0, size)
  {
  }

  lemma MajorFields(heap: seq<Maj>, i: nat)
    requires i < |heap|
    ensures MajorAt(heap, i).first == AddrOr0(heap[i].blocks, 0) && MajorAt(heap, i).size == heap[i].pages * PAGE_SIZE
    ensures MajorAt(heap, i).usage == MAJOR_HEADER + UsageOf(heap[i].blocks)
    ensures MajorAt(heap, i).prev == MajAddrOr0(heap, i - 1) && MajorAt(heap, i).next == MajAddrOr0(heap, i + 1)
  {
  }

  lemma MinorExists(heap: seq<Maj>, i: nat, k: nat)
    requires i < |heap| && AddrOr0(heap[i].blocks, k) != 0
    ensures k < |heap[i].blocks| && heap[i].blocks[k].addr == AddrOr0(heap[i].blocks, k)
  {
  }

  /** The two ways in which the code measures the gap behind piece k. */
  lemma GapBehind(heap: seq<Maj>, i: nat, k: nat, size: nat)
    requires HeapOk(heap) && i < |heap| && k < |heap[i].blocks|
    ensures var m := heap[i]; var next := AddrOr0(m.blocks, k + 1);
            && (next == 0 <==> k + 1 == |m.blocks|)
            && EndOf(m.blocks[k]) <= (if next == 0 then Top(m) else next)
            && (Fits(m, k + 1, size) <==> (if next == 0 then Top(m) else next) - EndOf(m.blocks[k]) >= size + MINOR_HEADER)
  {
    assert MajOk(heap[i]);
    if k + 1 < |heap[i].blocks| {
      AddrNotNull(heap, i, k + 1);
    }
  }

  lemma NextDiffers(heap: seq<Maj>, i: nat, k: nat, size: nat)
    requires HeapOk(heap) && i < |heap| && k + 1 < |heap[i].blocks| && Fits(heap[i], k + 1, size)
    ensures heap[i].blocks[k + 1].addr != heap[i].blocks[k].addr && heap[i].blocks[k + 1].addr != EndOf(heap[i].blocks[k])
  {
  }

  lemma AllGapsTooSmall(m: Maj, size: nat, k: nat)
    requires AddrOr0(m.blocks, k) == 0 && forall j: nat :: j <= k && j <= |m.blocks| ==> !Fits(m, j, size)
    requires k == |m.blocks|
    ensures NoGap(m, size)
  {
  }

  // ---------- the heap with a new piece ----------

  /** The tags are right for the new heap. */
  lemma NewTagged(heap: seq<Maj>, i: nat, k: nat, size: nat, req: nat, bytes: map<nat, nat>, bytes': map<nat, nat>)
    requires i < |heap| && k <= |heap[i].blocks| && HeapOk(HeapWith(heap, i, k, size, req)) && Tagged(bytes, heap)
    requires var p := UserPtr(NewBlock(heap[i], k, size, req).addr);
             bytes' == bytes[p - ALIGN_INFO := p - (NewBlock(heap[i], k, size, req).addr + MINOR_HEADER)]
    ensures Tagged(bytes', HeapWith(heap, i, k, size, req))
  {
    hide HeapOk, UserPtr, Inserted;
    var b, h := NewBlock(heap[i], k, size, req), HeapWith(heap, i, k, size, req);
    forall j, l | 0 <= j < |h| && 0 <= l < |h[j].blocks|
      ensures TagOk(bytes', h[j].blocks[l].addr)
    {
      InsertedAt(heap[i].blocks, k, b, k);
      if j == i { InsertedAt(heap[i].blocks, k, b, l); }
      if j != i || l != k {
        var o := if j == i && l > k then l - 1 else l;
        assert TagOk(bytes, heap[j].blocks[o].addr);
        TagElsewhere(h, j, l, i, k);
        OtherTag(bytes, bytes', h[j].blocks[l].addr, b.addr);
      } else {
        OwnTag(bytes', b.addr);
      }
    }
  }

  lemma OwnTag(bytes: map<nat, nat>, addr: nat)
    requires UserPtr(addr) >= ALIGN_INFO && UserPtr(addr) - ALIGN_INFO in bytes
    requires bytes[UserPtr(addr) - ALIGN_INFO] == UserPtr(addr) - (addr + MINOR_HEADER)
    ensures TagOk(bytes, addr)
  {
  }

  lemma OtherTag(bytes: map<nat, nat>, bytes': map<nat, nat>, addr: nat, other: nat)
    requires TagOk(bytes, addr) && UserPtr(addr) - ALIGN_INFO != UserPtr(other) - ALIGN_INFO
    requires bytes' == bytes[UserPtr(other) - ALIGN_INFO := UserPtr(other) - (other + MINOR_HEADER)]
    ensures TagOk(bytes', addr)
  {
  }

  lemma SameMajors(heap: seq<Maj>, i: nat, k: nat, size: nat, req: nat, a: nat)
    requires i < |heap| && k <= |heap[i].blocks|
    ensures var h := HeapWith(heap, i, k, size, req);
            && MajAddrOr0(h, 0) == MajAddrOr0(heap, 0) && (IsMajor(heap, a) ==> IsMajor(h, a))
  {
    var h := HeapWith(heap, i, k, size, req);
    if IsMajor(heap, a) {
      var j :| 0 <= j < |heap| && heap[j].addr == a;
      assert h[j].addr == a;
    }
  }

  ghost predicate IsMajor(heap: seq<Maj>, a: nat)
  {
    exists i :: 0 <= i < |heap| && heap[i].addr == a
  }

  ghost predicate NoneEmpty(heap: seq<Maj>)
  {
    forall i :: 0 <= i < |heap| ==> heap[i].blocks != []
  }

  // ---------- growing ----------

  /** Pages to ask for: headers included, at least 16. */
  function PagesFor(size: nat): (n: nat)
    ensures n * PAGE_SIZE >= size + MAJOR_HEADER + MINOR_HEADER
  {
    var st := size + MAJOR_HEADER + MINOR_HEADER;
    var n := if st % PAGE_SIZE == 0 then st / PAGE_SIZE else st / PAGE_SIZE + 1;
    if n < MIN_PAGES then MIN_PAGES else n
  }

  /** What the system may answer: nothing, or memory that no major has. */
  ghost predicate SystemAnswer(heap: seq<Maj>, answer: nat, size: nat)
  {
    answer == 0 || forall i :: 0 <= i < |heap| ==> Apart(heap[i], Maj(answer, PagesFor(size), []))
  }

  lemma NewMajOk(answer: nat, size: nat)
    requires answer != 0
    ensures MajOk(Maj(answer, PagesFor(size), []))
  {
    hide PagesFor;
    PagesEnough(size);
  }

  lemma PagesEnough(size: nat)
    ensures PagesFor(size) * PAGE_SIZE >= size + MAJOR_HEADER + MINOR_HEADER
  {
  }

  ghost predicate NoGapAnywhere(heap: seq<Maj>, size: nat)
  {
    forall i :: 0 <= i < |heap| ==> NoGap(heap[i], size)
  }

  /** A request was served: from a gap in some major, or, when there was none, from a new major. */
  ghost predicate Served(heap: seq<Maj>, heap': seq<Maj>, i: nat, k: nat, size: nat, req: nat, p: nat, answer: nat)
  {
    || PlacedIn(heap, heap', i, k, size, req, p)
    || (NoGapAnywhere(heap, size) && i == |heap| && answer != 0
        && PlacedIn(heap + [Maj(answer, PagesFor(size), [])], heap', i, k, size, req, p))
  }

  lemma WholeSearched(heap: seq<Maj>, i: nat, size: nat)
    requires i + 1 == |heap| && NoGap(heap[i], size) && forall j :: 0 <= j < i ==> NoGap(heap[j], size)
    ensures NoGapAnywhere(heap, size)
  {
    hide NoGap;
  }

  lemma PlacedNotEmpty(heap: seq<Maj>, heap': seq<Maj>, i: nat, k: nat, size: nat, req: nat, p: nat)
    requires PlacedIn(heap, heap', i, k, size, req, p) && forall j :: 0 <= j < |heap| && j != i ==> heap[j].blocks != []
    ensures NoneEmpty(heap') && p != 0
  {
    hide Fits;
    forall j | 0 <= j < |heap'|
      ensures heap'[j].blocks != []
    {
      if j == i {
        assert |heap'[j].blocks| == |heap[i].blocks| + 1;
      }
    }
  }

  lemma ServedHere(heap: seq<Maj>, heap': seq<Maj>, i: nat, k: nat, size: nat, req: nat, p: nat, answer: nat)
    requires PlacedIn(heap, heap', i, k, size, req, p) && NoneEmpty(heap)
    ensures Served(heap, heap', i, k, size, req, p, answer) && NoneEmpty(heap')
  {
    hide PlacedIn;
    PlacedNotEmpty(heap, heap', i, k, size, req, p);
  }

  lemma ServedNew(heap: seq<Maj>, heap': seq<Maj>, k: nat, size: nat, req: nat, p: nat, answer: nat)
    requires NoGapAnywhere(heap, size) && answer != 0 && NoneEmpty(heap)
    requires PlacedIn(heap + [Maj(answer, PagesFor(size), [])], heap', |heap|, k, size, req, p)
    ensures Served(heap, heap', |heap|, k, size, req, p, answer) && NoneEmpty(heap')
  {
    hide PlacedIn, NoGapAnywhere, PagesFor;
    PlacedNotEmpty(heap + [Maj(answer, PagesFor(size), [])], heap', |heap|, k, size, req, p);
  }

  lemma NewHasRoom(heap: seq<Maj>, i: nat, size: nat, answer: nat)
    requires i < |heap| && heap[i] == Maj(answer, PagesFor(size), [])
    ensures MAJOR_HEADER + UsageOf(heap[i].blocks) + size + MINOR_HEADER <= heap[i].pages * PAGE_SIZE
  {
    hide PagesFor;
    PagesEnough(size);
  }

  lemma UsageWithin(heap: seq<Maj>, i: nat)
    requires HeapOk(heap) && i < |heap|
    ensures MAJOR_HEADER + UsageOf(heap[i].blocks) <= heap[i].pages * PAGE_SIZE
  {
    assert MajOk(heap[i]);
    UsageFits(heap[i].blocks, heap[i].addr + MAJOR_HEADER, Top(heap[i]));
  }

  // ---------- the records of a new major ----------

  /** The state after a major was appended. */
  lemma AppendFacts(majors': map<nat, MajorRec>, majors: map<nat, MajorRec>, minors: map<nat, MinorRec>,
                    bytes: map<nat, nat>, heap: seq<Maj>, m: Maj)
    requires Records(majors, minors, heap) && Tagged(bytes, heap)
    requires MajOk(m) && m.blocks == [] && forall i :: 0 <= i < |heap| ==> Apart(heap[i], m)
    requires majors' == SetMajNext(majors, MajAddrOr0(heap, |heap| - 1), m.addr)
                        [m.addr := MajorRec(MajAddrOr0(heap, |heap| - 1), 0, m.pages, m.pages * PAGE_SIZE, MAJOR_HEADER, 0)]
    ensures Records(majors', minors, heap + [m]) && Tagged(bytes, heap + [m])
    ensures Allocated(heap + [m]) == Allocated(heap) + m.pages * PAGE_SIZE && InUse(heap + [m]) == InUse(heap)
  {
    hide Allocated, InUse, TagOk, MinorsLinked, IsLive, MajOk, Apart;
    OkAppended(heap, m);
    MajorAppended(majors, heap, m);
    var h := heap + [m];
    forall a | a in minors && minors[a].magic == LIBALLOC_MAGIC
      ensures IsLive(h, a)
    {
      StillLive(heap, m, a);
    }
    forall i | 0 <= i < |h|
      ensures MinorsLinked(minors, h[i].blocks, h[i].addr)
    {
      if i == |heap| { NoMinors(minors, m.addr); }
    }
    forall i, k | 0 <= i < |h| && 0 <= k < |h[i].blocks|
      ensures TagOk(bytes, h[i].blocks[k].addr)
    {
      assert h[i] == heap[i];
    }
  }

  lemma LastDiffers(heap: seq<Maj>, m: Maj)
    requires HeapOk(heap) && MajOk(m) && |heap| > 0 && Apart(heap[|heap| - 1], m)
    ensures heap[|heap| - 1].addr != m.addr
  {
    assert MajOk(heap[|heap| - 1]);
  }

  lemma NoMinors(minors: map<nat, MinorRec>, a: nat)
    ensures MinorsLinked(minors, [], a)
  {
  }

  lemma StillLive(heap: seq<Maj>, m: Maj, a: nat)
    requires IsLive(heap, a)
    ensures IsLive(heap + [m], a)
  {
    var i, k :| 0 <= i < |heap| && 0 <= k < |heap[i].blocks| && heap[i].blocks[k].addr == a;
    assert (heap + [m])[i].blocks[k].addr == a;
  }

  lemma StillMajor(heap: seq<Maj>, m: Maj, a: nat)
    requires a == 0 || IsMajor(heap, a)
    ensures a == 0 || IsMajor(heap + [m], a)
  {
    if a != 0 {
      var i :| 0 <= i < |heap| && heap[i].addr == a;
      assert (heap + [m])[i].addr == a;
    }
  }

  // ---------- freeing ----------

  /** The heap without piece k of major i; a major that becomes empty goes too. */
  function Freed(heap: seq<Maj>, i: nat, k: nat): seq<Maj>
    requires i < |heap| && k < |heap[i].blocks|
  {
    if |heap[i].blocks| == 1 then WithoutMaj(heap, i) else WithBlocks(heap, i, Removed(heap[i].blocks, k))
  }

  ghost predicate FreedPiece(heap: seq<Maj>, heap': seq<Maj>, a: nat)
  {
    exists i, k :: 0 <= i < |heap| && 0 <= k < |heap[i].blocks| && heap[i].blocks[k].addr == a && heap' == Freed(heap, i, k)
  }

  lemma FindLive(heap: seq<Maj>, a: nat) returns (i: nat, k: nat)
    requires IsLive(heap, a)
    ensures i < |heap| && k < |heap[i].blocks| && heap[i].blocks[k].addr == a
  {
    i, k :| 0 <= i < |heap| && 0 <= k < |heap[i].blocks| && heap[i].blocks[k].addr == a;
  }

  /** The record that the major must get. */
  lemma RemoveFacts(majors: map<nat, MajorRec>, minors: map<nat, MinorRec>, heap: seq<Maj>, i: nat, k: nat)
    requires Records(majors, minors, heap) && i < |heap| && k < |heap[i].blocks|
    ensures heap[i].blocks[k].addr in minors && heap[i].addr in majors
    ensures var bs := heap[i].blocks; var usage := majors[heap[i].addr].usage;
            && usage >= bs[k].size + MINOR_HEADER
            && Records(majors[heap[i].addr := majors[heap[i].addr].(usage := usage - (bs[k].size + MINOR_HEADER),
                                                                   first := if k == 0 then AddrOr0(bs, 1) else AddrOr0(bs, 0))],
                       LinkOut(minors, bs[k].addr), WithBlocks(heap, i, Removed(bs, k)))
  {
    hide HeapOk, AllMinorsLinked, OnlyLive, MajorsLinked, MajorAt, UsageOf, InUseOf, LinkOut;
    MajorHere(majors, minors, heap, i);
    MajorFields(heap, i);
    RemoveMinor(minors, heap, i, k);
    SumRemoved(heap[i].blocks, k);
    MajorChanged(majors, heap, i, Removed(heap[i].blocks, k));
    RemovedOk(heap, i, k);
    FirstAfter(heap[i].blocks, k);
  }

  lemma FirstAfter(bs: seq<Block>, k: nat)
    requires k < |bs|
    ensures AddrOr0(Removed(bs, k), 0) == if k == 0 then AddrOr0(bs, 1) else AddrOr0(bs, 0)
  {
  }

  lemma RemovedOk(heap: seq<Maj>, i: nat, k: nat)
    requires HeapOk(heap) && i < |heap| && k < |heap[i].blocks|
    ensures HeapOk(WithBlocks(heap, i, Removed(heap[i].blocks, k)))
  {
    assert MajOk(heap[i]);
    RemoveOk(heap[i].blocks, heap[i].addr + MAJOR_HEADER, Top(heap[i]), k);
    OkWithBlocks(heap, i, Removed(heap[i].blocks, k));
  }

  /** A major's record without a piece. */
  function WithoutPiece(majors: map<nat, MajorRec>, maj: nat, rec: MinorRec): map<nat, MajorRec>
    requires maj in majors && majors[maj].usage >= rec.size + MINOR_HEADER
  {
    majors[maj := majors[maj].(usage := majors[maj].usage - (rec.size + MINOR_HEADER),
                               first := if rec.prev == 0 then rec.next else majors[maj].first)]
  }

  lemma NeighbourRecords(majors: map<nat, MajorRec>, minors: map<nat, MinorRec>, heap: seq<Maj>, i: nat, k: nat)
    requires Records(majors, minors, heap) && i < |heap| && k < |heap[i].blocks|
    ensures AddrOr0(heap[i].blocks, k + 1) != 0 ==> AddrOr0(heap[i].blocks, k + 1) in minors
    ensures AddrOr0(heap[i].blocks, k - 1) != 0 ==> AddrOr0(heap[i].blocks, k - 1) in minors
    ensures AddrOr0(heap[i].blocks, k - 1) == 0 <==> k == 0
  {
    hide MinorAt, HeapOk, MajorsLinked;
    if k + 1 < |heap[i].blocks| { MinorHere(majors, minors, heap, i, k + 1); }
    if k > 0 { MinorHere(majors, minors, heap, i, k - 1); }
  }

  lemma PieceFreed(heap: seq<Maj>, i: nat, k: nat)
    requires i < |heap| && k < |heap[i].blocks|
    ensures IsLive(heap, heap[i].blocks[k].addr) && FreedPiece(heap, Freed(heap, i, k), heap[i].blocks[k].addr)
  {
  }

  lemma SetMajMaps(m: map<nat, MajorRec>, prev: nat, next: nat)
    ensures var m1 := if prev != 0 && prev in m then m[prev := m[prev].(next := next)] else m;
            var m2 := if next != 0 && next in m1 then m1[next := m1[next].(prev := prev)] else m1;
            SetMajPrev(SetMajNext(m, prev, next), next, prev) == m2
  {
  }

  /** The records when an empty major is taken out. */
  lemma ReleaseFacts(majors: map<nat, MajorRec>, minors: map<nat, MinorRec>, bytes: map<nat, nat>, heap: seq<Maj>, i: nat)
    requires Records(majors, minors, heap) && Tagged(bytes, heap) && i < |heap| && heap[i].blocks == []
    ensures heap[i].addr in majors
    ensures var rec := majors[heap[i].addr];
            Records(SetMajPrev(SetMajNext(majors, rec.prev, rec.next), rec.next, rec.prev), minors, WithoutMaj(heap, i))
    ensures Tagged(bytes, WithoutMaj(heap, i))
    ensures Allocated(heap) == Allocated(WithoutMaj(heap, i)) + heap[i].pages * PAGE_SIZE
    ensures InUse(heap) == InUse(WithoutMaj(heap, i))
  {
    hide HeapOk, MajorAt, Allocated, InUse, TagOk, MinorsLinked, IsLive, WithoutMaj, MajorsLinked, SetMajNext, SetMajPrev;
    OkWithoutMaj(heap, i);
    MajorRemoved(majors, heap, i);
    var h := WithoutMaj(heap, i);
    forall a | a in minors && minors[a].magic == LIBALLOC_MAGIC
      ensures IsLive(h, a)
    {
      LiveWithout(heap, i, a);
    }
    forall j | 0 <= j < |h|
      ensures MinorsLinked(minors, h[j].blocks, h[j].addr)
    {
      WithoutMajAt(heap, i, j);
    }
    forall j, k | 0 <= j < |h| && 0 <= k < |h[j].blocks|
      ensures TagOk(bytes, h[j].blocks[k].addr)
    {
      WithoutMajAt(heap, i, j);
    }
  }

  lemma LiveWithout(heap: seq<Maj>, i: nat, a: nat)
    requires i < |heap| && heap[i].blocks == [] && IsLive(heap, a)
    ensures IsLive(WithoutMaj(heap, i), a)
  {
    var j, k := FindLive(heap, a);
    var j' := if j < i then j else j - 1;
    WithoutMajAt(heap, i, j');
    assert WithoutMaj(heap, i)[j'].blocks[k].addr == a;
  }

  lemma RootAfter(heap: seq<Maj>, i: nat)
    requires HeapOk(heap) && i < |heap|
    ensures MajAddrOr0(WithoutMaj(heap, i), 0)
         == if MajAddrOr0(heap, 0) == heap[i].addr then MajAddrOr0(heap, i + 1) else MajAddrOr0(heap, 0)
  {
    hide HeapOk;
    if i > 0 {
      MajorsDistinct(heap, 0, i);
    }
  }

  lemma BestAfter(heap: seq<Maj>, i: nat, best: nat)
    requires i < |heap| && (best == 0 || IsMajor(heap, best))
    ensures best == 0 || best == heap[i].addr || IsMajor(WithoutMaj(heap, i), best)
  {
    if best != 0 && best != heap[i].addr {
      var j :| 0 <= j < |heap| && heap[j].addr == best;
      var j' := if j < i then j else j - 1;
      WithoutMajAt(heap, i, j');
      assert WithoutMaj(heap, i)[j'].addr == best;
    }
  }

  lemma FreeSums(heap: seq<Maj>, i: nat, k: nat)
    requires i < |heap| && k < |heap[i].blocks|
    ensures var h := WithBlocks(heap, i, Removed(heap[i].blocks, k));
            Allocated(h) == Allocated(heap) && InUse(heap) == InUse(h) + heap[i].blocks[k].size
  {
    hide Allocated, InUse, InUseOf, UsageOf;
    SumsWithBlocks(heap, i, Removed(heap[i].blocks, k));
    SumRemoved(heap[i].blocks, k);
  }

  lemma FreeTagged(bytes: map<nat, nat>, heap: seq<Maj>, i: nat, k: nat)
    requires Tagged(bytes, heap) && i < |heap| && k < |heap[i].blocks|
    ensures Tagged(bytes, WithBlocks(heap, i, Removed(heap[i].blocks, k)))
  {
    hide TagOk;
    var h := WithBlocks(heap, i, Removed(heap[i].blocks, k));
    forall j, l | 0 <= j < |h| && 0 <= l < |h[j].blocks|
      ensures TagOk(bytes, h[j].blocks[l].addr)
    {
      assert h[j].blocks[l] == heap[j].blocks[if j == i && l >= k then l + 1 else l];
    }
  }

  lemma FreeEmpty(heap: seq<Maj>, i: nat, k: nat)
    requires NoneEmpty(heap) && i < |heap| && k < |heap[i].blocks|
    ensures NoneEmpty(Freed(heap, i, k))
  {
    if |heap[i].blocks| == 1 {
      forall j | 0 <= j < |heap| - 1
        ensures WithoutMaj(heap, i)[j].blocks != []
      {
        WithoutMajAt(heap, i, j);
      }
    }
  }

  lemma FreeMajors(heap: seq<Maj>, i: nat, k: nat, best: nat)
    requires i < |heap| && k < |heap[i].blocks|
    ensures var h := WithBlocks(heap, i, Removed(heap[i].blocks, k));
            && MajAddrOr0(h, 0) == MajAddrOr0(heap, 0) && (IsMajor(heap, best) ==> IsMajor(h, best)) && IsMajor(h, heap[i].addr)
  {
    var h := WithBlocks(heap, i, Removed(heap[i].blocks, k));
    assert h[i].addr == heap[i].addr;
    if IsMajor(heap, best) {
      var j :| 0 <= j < |heap| && heap[j].addr == best;
      assert h[j].addr == best;
    }
  }

  lemma SameWithout(heap: seq<Maj>, i: nat, h: seq<Maj>)
    requires i < |heap| && |h| == |heap| && forall j :: 0 <= j < |heap| && j != i ==> h[j] == heap[j]
    ensures WithoutMaj(h, i) == WithoutMaj(heap, i)
  {
  }

  // ---------- resizing ----------

  /** The bytes of src are at dst, and nothing else has changed. */
  ghost predicate Copied(b0: map<nat, nat>, b: map<nat, nat>, dst: nat, src: nat, n: nat)
  {
    && (forall x: nat :: dst <= x < dst + n ==> ByteAt(b, x) == ByteAt(b0, src + (x - dst)))
    && (forall x: nat :: x < dst || x >= dst + n ==> ByteAt(b, x) == ByteAt(b0, x))
  }

  lemma NothingCopied(b: map<nat, nat>, dst: nat, src: nat)
    ensures Copied(b, b, dst, src, 0)
  {
  }

  lemma NotYetWritten(b0: map<nat, nat>, b: map<nat, nat>, dst: nat, src: nat, i: nat, n: nat)
    requires Copied(b0, b, dst, src, i) && i <= n && (dst + n <= src || src + n <= dst)
    ensures forall k: nat :: src + i <= k < src + n ==> ByteAt(b, k) == ByteAt(b0, k)
  {
  }

  lemma CopyByte(b0: map<nat, nat>, b: map<nat, nat>, dst: nat, src: nat, i: nat, w: nat)
    requires Copied(b0, b, dst, src, i) && w == ByteAt(b0, src + i)
    ensures Copied(b0, b[dst + i := w], dst, src, i + 1)
  {
    var b', m := b[dst + i := w], i + 1;
    forall x: nat | dst <= x < dst + m
      ensures ByteAt(b', x) == ByteAt(b0, src + (x - dst))
    {
      if x < dst + i { assert ByteAt(b, x) == ByteAt(b0, src + (x - dst)); }
    }
    forall x: nat | x < dst || x >= dst + m
      ensures ByteAt(b', x) == ByteAt(b0, x)
    {
      assert ByteAt(b, x) == ByteAt(b0, x);
    }
  }

  /** After a move the first n bytes are the old ones; outside the new piece nothing has changed. */
  ghost predicate Kept(b0: map<nat, nat>, b: map<nat, nat>, p: nat, ptr: nat, n: nat)
  {
    && p >= ALIGN_INFO
    && (forall x: nat :: p <= x < p + n ==> ByteAt(b, x) == ByteAt(b0, ptr + (x - p)))
    && (forall x: nat :: x != p - ALIGN_INFO && (x < p || x >= p + n) ==> ByteAt(b, x) == ByteAt(b0, x))
  }

  ghost predicate IsPiece(heap: seq<Maj>, i: nat, k: nat)
  {
    i < |heap| && k < |heap[i].blocks|
  }

  /** What was asked for by the live piece at a. */
  ghost function ReqOf(heap: seq<Maj>, a: nat): nat
    requires IsLive(heap, a)
  {
    var i, k :| 0 <= i < |heap| && 0 <= k < |heap[i].blocks| && heap[i].blocks[k].addr == a;
    heap[i].blocks[k].req
  }

  ghost predicate ResizedPiece(heap: seq<Maj>, heap': seq<Maj>, a: nat, size: nat)
  {
    exists i, k :: 0 <= i < |heap| && 0 <= k < |heap[i].blocks| && heap[i].blocks[k].addr == a
                   && heap' == Resized(heap, i, k, size)
  }

  lemma PieceIs(heap: seq<Maj>, i: nat, k: nat, size: nat)
    requires HeapOk(heap) && IsPiece(heap, i, k)
    ensures IsLive(heap, heap[i].blocks[k].addr) && ReqOf(heap, heap[i].blocks[k].addr) == heap[i].blocks[k].req
    ensures ResizedPiece(heap, Resized(heap, i, k, size), heap[i].blocks[k].addr, size)
  {
    hide HeapOk, Resized;
    var a := heap[i].blocks[k].addr;
    var j, l :| 0 <= j < |heap| && 0 <= l < |heap[j].blocks| && heap[j].blocks[l].addr == a && heap[j].blocks[l].req == ReqOf(heap, a);
    if j != i || l != k {
      AddrsDistinct(heap, i, k, j, l);
    }
  }

  function Resized(heap: seq<Maj>, i: nat, k: nat, size: nat): seq<Maj>
    requires i < |heap| && k < |heap[i].blocks|
  {
    WithBlocks(heap, i, heap[i].blocks[k := heap[i].blocks[k].(req := size)])
  }

  lemma ResizedAt(heap: seq<Maj>, i: nat, k: nat, size: nat, j: nat, l: nat)
    requires IsPiece(heap, i, k) && j < |heap| && l < |heap[j].blocks|
    ensures var h := Resized(heap, i, k, size);
            && |h| == |heap| && |h[j].blocks| == |heap[j].blocks| && h[j].addr == heap[j].addr && h[j].pages == heap[j].pages
            && h[j].blocks[l] == if j == i && l == k then heap[i].blocks[k].(req := size) else heap[j].blocks[l]
  {
  }

  lemma {:induction false} SameSums(bs: seq<Block>, cs: seq<Block>)
    requires |bs| == |cs| && forall l :: 0 <= l < |bs| ==> bs[l].size == cs[l].size
    ensures UsageOf(bs) == UsageOf(cs) && InUseOf(bs) == InUseOf(cs)
  {
    if |bs| > 0 {
      SameSums(bs[..|bs| - 1], cs[..|cs| - 1]);
    }
  }

  /** Only what was asked for changes: everything else the state says stays true. */
  lemma ResizeFacts(majors: map<nat, MajorRec>, minors: map<nat, MinorRec>, bytes: map<nat, nat>, heap: seq<Maj>,
                    i: nat, k: nat, size: nat, best: nat)
    requires Records(majors, minors, heap) && Tagged(bytes, heap) && IsPiece(heap, i, k) && size <= heap[i].blocks[k].req
    requires (best == 0 || IsMajor(heap, best)) && NoneEmpty(heap)
    ensures heap[i].blocks[k].addr in minors
    ensures var h := Resized(heap, i, k, size);
            && Records(majors, minors[heap[i].blocks[k].addr := minors[heap[i].blocks[k].addr].(req := size)], h)
            && Tagged(bytes, h) && MajAddrOr0(h, 0) == MajAddrOr0(heap, 0) && (best == 0 || IsMajor(h, best))
            && NoneEmpty(h) && Allocated(h) == Allocated(heap) && InUse(h) == InUse(heap)
  {
    hide Records, HeapOk, Tagged, Allocated, InUse, UsageOf, InUseOf, IsMajor, NoneEmpty, MinorAt, MajorAt;
    var h := Resized(heap, i, k, size);
    MinorHere(majors, minors, heap, i, k);
    ResizedSums(heap, i, k, size);
    ResizedRecords(majors, minors, heap, i, k, size);
    ResizedOthers(bytes, heap, i, k, size, best);
  }

  lemma ResizedSums(heap: seq<Maj>, i: nat, k: nat, size: nat)
    requires IsPiece(heap, i, k)
    ensures var h := Resized(heap, i, k, size);
            && Allocated(h) == Allocated(heap) && InUse(h) == InUse(heap) && UsageOf(h[i].blocks) == UsageOf(heap[i].blocks)
  {
    hide Allocated, InUse, UsageOf, InUseOf;
    var bs := heap[i].blocks[k := heap[i].blocks[k].(req := size)];
    SameSums(bs, heap[i].blocks);
    SumsWithBlocks(heap, i, bs);
  }

  lemma ResizedRecords(majors: map<nat, MajorRec>, minors: map<nat, MinorRec>, heap: seq<Maj>, i: nat, k: nat, size: nat)
    requires Records(majors, minors, heap) && IsPiece(heap, i, k) && size <= heap[i].blocks[k].req
    ensures heap[i].blocks[k].addr in minors
    ensures Records(majors, minors[heap[i].blocks[k].addr := minors[heap[i].blocks[k].addr].(req := size)],
                    Resized(heap, i, k, size))
  {
    hide HeapOk, UsageOf, IsLive, MajorAt, MinorAt, Resized;
    MinorHere(majors, minors, heap, i, k);
    ResizedOk(heap, i, k, size);
    var a, h := heap[i].blocks[k].addr, Resized(heap, i, k, size);
    var m' := minors[a := minors[a].(req := size)];
    ResizedAt(heap, i, k, size, i, k);
    forall j | 0 <= j < |h|
      ensures h[j].addr in majors && majors[h[j].addr] == MajorAt(h, j)
      ensures MinorsLinked(m', h[j].blocks, h[j].addr)
    {
      ResizedMajor(majors, minors, heap, i, k, size, j);
    }
    RecordLinks(heap[i].blocks, k, heap[i].addr);
    forall x | x in m' && m'[x].magic == LIBALLOC_MAGIC
      ensures IsLive(h, x)
    {
      assert minors[x].magic == LIBALLOC_MAGIC;
      ResizedLive(heap, i, k, size, x);
    }
  }

  lemma ResizedLive(heap: seq<Maj>, i: nat, k: nat, size: nat, x: nat)
    requires IsPiece(heap, i, k) && IsLive(heap, x)
    ensures IsLive(Resized(heap, i, k, size), x)
  {
    var j, l := FindLive(heap, x);
    ResizedAt(heap, i, k, size, j, l);
    assert Resized(heap, i, k, size)[j].blocks[l].addr == x;
  }

  lemma ResizedOk(heap: seq<Maj>, i: nat, k: nat, size: nat)
    requires HeapOk(heap) && IsPiece(heap, i, k) && size <= heap[i].blocks[k].req
    ensures HeapOk(Resized(heap, i, k, size))
  {
    var bs := heap[i].blocks[k := heap[i].blocks[k].(req := size)];
    assert MajOk(heap[i]);
    assert BlocksOk(bs, heap[i].addr + MAJOR_HEADER, Top(heap[i]));
    OkWithBlocks(heap, i, bs);
  }

  lemma ResizedMajor(majors: map<nat, MajorRec>, minors: map<nat, MinorRec>, heap: seq<Maj>, i: nat, k: nat, size: nat, j: nat)
    requires Records(majors, minors, heap) && IsPiece(heap, i, k) && j < |heap| && heap[i].blocks[k].addr in minors
    ensures var h := Resized(heap, i, k, size);
            var m' := minors[heap[i].blocks[k].addr := minors[heap[i].blocks[k].addr].(req := size)];
            && |h| == |heap| && h[j].addr in majors && majors[h[j].addr] == MajorAt(h, j)
            && MinorsLinked(m', h[j].blocks, h[j].addr)
  {
    hide HeapOk, UsageOf, OnlyLive, MajorAt, MinorAt, Resized;
    var h := Resized(heap, i, k, size);
    var m' := minors[heap[i].blocks[k].addr := minors[heap[i].blocks[k].addr].(req := size)];
    SameMajorRecord(heap, i, k, size, j);
    assert MinorsLinked(minors, heap[j].blocks, heap[j].addr);
    forall l | 0 <= l < |h[j].blocks|
      ensures h[j].blocks[l].addr in m' && m'[h[j].blocks[l].addr] == MinorAt(h[j].blocks, l, h[j].addr)
    {
      ResizedAt(heap, i, k, size, j, l);
      SameMinorRecord(heap, i, k, size, j, l);
      if j != i || l != k {
        AddrsDistinct(heap, i, k, j, l);
      }
    }
  }

  lemma SameMajorRecord(heap: seq<Maj>, i: nat, k: nat, size: nat, j: nat)
    requires IsPiece(heap, i, k) && j < |heap|
    ensures var h := Resized(heap, i, k, size);
            |h| == |heap| && h[j].addr == heap[j].addr && |h[j].blocks| == |heap[j].blocks| && MajorAt(h, j) == MajorAt(heap, j)
  {
    hide UsageOf;
    ResizedSums(heap, i, k, size);
  }

  lemma SameMinorRecord(heap: seq<Maj>, i: nat, k: nat, size: nat, j: nat, l: nat)
    requires IsPiece(heap, i, k) && j < |heap| && l < |heap[j].blocks|
    ensures var h := Resized(heap, i, k, size);
            && |h| == |heap| && |h[j].blocks| == |heap[j].blocks|
            && MinorAt(h[j].blocks, l, h[j].addr)
               == if j == i && l == k then MinorAt(heap[j].blocks, l, heap[j].addr).(req := size)
                  else MinorAt(heap[j].blocks, l, heap[j].addr)
  {
  }

  lemma ResizedOthers(bytes: map<nat, nat>, heap: seq<Maj>, i: nat, k: nat, size: nat, best: nat)
    requires Tagged(bytes, heap) && IsPiece(heap, i, k) && (best == 0 || IsMajor(heap, best)) && NoneEmpty(heap)
    ensures var h := Resized(heap, i, k, size);
            && Tagged(bytes, h) && MajAddrOr0(h, 0) == MajAddrOr0(heap, 0) && (best == 0 || IsMajor(h, best)) && NoneEmpty(h)
  {
    hide TagOk;
    var h := Resized(heap, i, k, size);
    forall j, l | 0 <= j < |h| && 0 <= l < |h[j].blocks|
      ensures TagOk(bytes, h[j].blocks[l].addr)
    {
      ResizedAt(heap, i, k, size, j, l);
      assert TagOk(bytes, heap[j].blocks[l].addr);
    }
    if best != 0 {
      var j :| 0 <= j < |heap| && heap[j].addr == best;
      assert h[j].addr == best;
    }
  }

  // ---------- moving ----------

  /** The piece to be moved is still there after malloc, and apart from the new one. */
  lemma MovedApart(heap: seq<Maj>, moved: seq<Maj>, i: nat, k: nat, size: nat, req: nat, p: nat, answer: nat, i0: nat, k0: nat)
    returns (j: nat, l: nat)
    requires Served(heap, moved, i, k, size, req, p, answer) && HeapOk(moved) && IsPiece(heap, i0, k0)
    requires heap[i0].blocks[k0].req < req
    ensures IsPiece(moved, j, l) && moved[j].blocks[l] == heap[i0].blocks[k0]
    ensures IsPiece(moved, i, k) && p == UserPtr(moved[i].blocks[k].addr) && moved[i].blocks[k].req == req
    ensures var b := heap[i0].blocks[k0]; var q := UserPtr(b.addr); p + req <= q || q + b.req <= p
    ensures j != i || l != k
  {
    hide HeapOk, UserPtr, PagesFor, NoGapAnywhere, Fits;
    var h := if PlacedIn(heap, moved, i, k, size, req, p) then heap else heap + [Maj(answer, PagesFor(size), [])];
    j, l := i0, if i0 == i && k0 >= k then k0 + 1 else k0;
    InsertedAt(h[i].blocks, k, NewBlock(h[i], k, size, req), k);
    if i0 == i { InsertedAt(h[i].blocks, k, NewBlock(h[i], k, size, req), l); }
    UserRanges(moved, i, k, j, l);
  }

  /** Copying into the new piece leaves the tags alone. */
  lemma CopyKeepsTags(b0: map<nat, nat>, b: map<nat, nat>, heap: seq<Maj>, i: nat, k: nat, size: nat, p: nat, ptr: nat, n: nat)
    requires HeapOk(heap) && Tagged(b0, heap) && IsPiece(heap, i, k) && p == UserPtr(heap[i].blocks[k].addr)
    requires n <= heap[i].blocks[k].req && Copied(b0, b, p, ptr, n)
    ensures Tagged(b, heap)
  {
    hide HeapOk, UserPtr;
    forall j, l | 0 <= j < |heap| && 0 <= l < |heap[j].blocks|
      ensures TagOk(b, heap[j].blocks[l].addr)
    {
      assert TagOk(b0, heap[j].blocks[l].addr);
      TagOutside(heap, i, k, j, l);
    }
  }

  /** No tag lies in a user's range. */
  lemma TagOutside(heap: seq<Maj>, i: nat, k: nat, j: nat, l: nat)
    requires HeapOk(heap) && IsPiece(heap, i, k) && IsPiece(heap, j, l)
    ensures var t, p := UserPtr(heap[j].blocks[l].addr) - ALIGN_INFO, UserPtr(heap[i].blocks[k].addr);
            0 <= t && (t < p || t >= p + heap[i].blocks[k].req)
  {
    hide HeapOk, UserPtr;
    PieceHoldsUser(heap, i, k);
    PieceHoldsUser(heap, j, l);
    if i != j || k != l {
      PiecesDisjoint(heap, i, k, j, l);
    }
  }

  lemma KeptAll(b0: map<nat, nat>, b1: map<nat, nat>, b: map<nat, nat>, p: nat, ptr: nat, n: nat)
    requires OnlyTag(b0, b1, p) && Copied(b1, b, p, ptr, n)
    requires p - ALIGN_INFO < ptr || p - ALIGN_INFO >= ptr + n
    ensures Kept(b0, b, p, ptr, n)
  {
    forall x: nat | p <= x < p + n
      ensures ByteAt(b, x) == ByteAt(b0, ptr + (x - p))
    {
      assert ByteAt(b, x) == ByteAt(b1, ptr + (x - p));
    }
    forall x: nat | x != p - ALIGN_INFO && (x < p || x >= p + n)
      ensures ByteAt(b, x) == ByteAt(b0, x)
    {
      assert ByteAt(b, x) == ByteAt(b1, x);
    }
  }

  /** A live pointer leads to its header. */
  lemma TaggedPiece(bytes: map<nat, nat>, heap: seq<Maj>, j: nat, l: nat)
    requires Tagged(bytes, heap) && IsPiece(heap, j, l)
    ensures HeaderOf(bytes, UserPtr(heap[j].blocks[l].addr)) == heap[j].blocks[l].addr
    ensures IsLive(heap, heap[j].blocks[l].addr) && UserPtr(heap[j].blocks[l].addr) != 0
  {
    hide UserPtr, HeaderOf;
    UserPtrFacts(heap[j].blocks[l].addr);
    assert TagOk(bytes, heap[j].blocks[l].addr);
    UnalignAlign(bytes, heap[j].blocks[l].addr);
  }

  /** Freeing what was just allocated gives the old heap back. */
  lemma FreeUndoesMalloc(heap: seq<Maj>, heap': seq<Maj>, i: nat, k: nat, size: nat, req: nat, p: nat, answer: nat)
    requires NoneEmpty(heap) && Served(heap, heap', i, k, size, req, p, answer)
    ensures IsPiece(heap', i, k) && p == UserPtr(heap'[i].blocks[k].addr) && Freed(heap', i, k) == heap
  {
    hide Fits, PagesFor, NoGapAnywhere, UserPtr;
    var h := if PlacedIn(heap, heap', i, k, size, req, p) then heap else heap + [Maj(answer, PagesFor(size), [])];
    var b := NewBlock(h[i], k, size, req);
    InsertedAt(h[i].blocks, k, b, k);
    RemoveInserted(h[i].blocks, k, b);
  }

  lemma RemoveInserted(bs: seq<Block>, k: nat, b: Block)
    requires k <= |bs|
    ensures Removed(Inserted(bs, k, b), k) == bs
  {
  }
}
