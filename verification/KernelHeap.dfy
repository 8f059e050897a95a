/**
 The kernel heap: a bitmap over 128-byte units, and an entry in front of each block that says where
 it starts and how many units it has.
 */
module KernelHeaps {
  import opened Bits
  import opened SingleBits

  const HEAP_SEG_SIZE: nat := 128
  const ENTRY_SIZE: nat := 8

  datatype Entry = Entry(idx: nat, size: nat)

  /** Unit u is in use. */
  predicate InUse(map': seq<byte>, u: nat)
  {
    BitAt(map', u) == 1
  }

  /** n units from u on, inside the heap, are free. */
  ghost predicate FreeRun(map': seq<byte>, entries: nat, u: nat, n: nat)
  {
    u + n <= entries && forall k :: u <= k < u + n ==> !InUse(map', k)
  }

  ghost predicate SomeRun(map': seq<byte>, entries: nat, n: nat)
  {
    exists k :: 0 <= k < entries && FreeRun(map', entries, k, n)
  }

  /** Live blocks are disjoint and own exactly the units in use; each has its entry in front. */
  ghost predicate Owned(map': seq<byte>, entries: nat, live: map<nat, nat>)
  {
    && (forall u :: u in live ==> live[u] > 0 && u + live[u] <= entries)
    && (forall u, v :: u in live && v in live && u < v ==> u + live[u] <= v)
    && (forall k: nat :: k < entries ==> (InUse(map', k) <==> Covered(live, k)))
  }

  ghost predicate Covered(live: map<nat, nat>, k: nat)
  {
    exists u :: u in live && u <= k < u + live[u]
  }

  /** Units in use among the first n. */
  function UsedUnits(map': seq<byte>, n: nat): (c: nat)
    ensures c <= n
  {
    if n == 0 then 0 else UsedUnits(map', n - 1) + if InUse(map', n - 1) then 1 else 0
  }

  /** A bit set or cleared, as the code does it. */
  function SetUnit(map': seq<byte>, u: nat, free: bool): (r: seq<byte>)
    requires u < 8 * |map'|
    ensures |r| == |map'| && forall k: nat :: InUse(r, k) <==> if k == u then !free else InUse(map', k)
  {
    UnitInUse(map', u, if free then 0 else 1);
    map'[u / 8 := WithBit(map'[u / 8], u % 8, if free then 0 else 1)]
  }

  lemma UnitInUse(map': seq<byte>, u: nat, b: bit)
    requires u < 8 * |map'|
    ensures WithBit(map'[u / 8], u % 8, b) < 256
    ensures forall k: nat :: InUse(map'[u / 8 := WithBit(map'[u / 8], u % 8, b)], k) <==> if k == u then b == 1 else InUse(map', k)
  {
    hide WithBit, BitAt;
    WithBitCorrect(map'[u / 8], u % 8, b, 0);
    var m := map'[u / 8 := WithBit(map'[u / 8], u % 8, b)];
    forall k: nat
      ensures InUse(m, k) <==> if k == u then b == 1 else InUse(map', k)
    {
      UnitSet(map', u, b, k);
    }
  }

  lemma UnitSet(map': seq<byte>, u: nat, b: bit, k: nat)
    requires u < 8 * |map'| && WithBit(map'[u / 8], u % 8, b) < 256
    ensures BitAt(map'[u / 8 := WithBit(map'[u / 8], u % 8, b)], k) == if k == u then b else BitAt(map', k)
  {
    hide WithBit, Shr;
    WithBitCorrect(map'[u / 8], u % 8, b, k % 8);
    if k / 8 == u / 8 && k != u {
      assert k % 8 != u % 8;
    }
  }

  /** n units from u on, set one after the other. */
  function SetUnits(map': seq<byte>, u: nat, n: nat, free: bool): (r: seq<byte>)
    requires u + n <= 8 * |map'|
    ensures |r| == |map'| && forall k: nat :: InUse(r, k) <==> if u <= k < u + n then !free else InUse(map', k)
  {
    if n == 0 then map' else SetUnit(SetUnits(map', u, n - 1, free), u + n - 1, free)
  }

  /** Setting a free run adds its length to the units in use. */
  lemma {:induction false} UsedAfter(a: seq<byte>, b: seq<byte>, u: nat, size: nat, n: nat)
    requires forall k: nat :: u <= k < u + size ==> !InUse(a, k)
    requires forall k: nat :: InUse(b, k) <==> (u <= k < u + size || InUse(a, k))
    ensures UsedUnits(b, n) == UsedUnits(a, n) + if n <= u then 0 else if n <= u + size then n - u else size
  {
    hide InUse;
    if n > 0 {
      UsedAfter(a, b, u, size, n - 1);
    }
  }

  class KernelHeap {
    const map': array<byte>
    const entries: nat
    const heapBegin: nat
    /** The entries in front of blocks, by the unit they lie in. */
    var headers: map<nat, Entry>
    ghost var live: map<nat, nat>

    ghost predicate Valid()
      reads this, map'
    {
      && entries == 8 * map'.Length && entries * HEAP_SEG_SIZE < 0x1_0000_0000
      && Owned(map'[..], entries, live)
      && forall u :: u in live ==> u in headers && headers[u] == Entry(u, live[u])
    }

    /** Where the memory of the heap ends; the map lies in front of the units and is taken from it. */
    function HeapEnd(): int
      reads this
    {
      heapBegin + entries * HEAP_SEG_SIZE - entries / 8
    }

    /** Units whose place the map takes. */
    function MapUnits(): nat
      reads this
    {
      (entries / 8 + 127) / 128
    }

    /** heap_init; the size is a multiple of 1024, so that the map has one bit for every unit. */
    constructor (heapBase: nat, heapSize: nat)
      requires heapSize % 1024 == 0 && heapSize < 0x1_0000_0000
      ensures fresh(map') && forall k: nat :: !InUse(map'[..], k)
      ensures Valid() && live == map[] && entries == heapSize / HEAP_SEG_SIZE && heapBegin == heapBase + entries / 8
      ensures HeapEnd() == heapBase + heapSize
    {
      var n := heapSize / HEAP_SEG_SIZE;
      entries := n;
      map' := new byte[n / 8](_ => 0);
      heapBegin := heapBase + n / 8;
      headers, live := map[], map[];
      new;
      forall k: nat
        ensures !InUse(map'[..], k)
      {
        ZeroBit(map'[..], k);
      }
    }

    lemma ZeroBit(s: seq<byte>, k: nat)
      requires forall i :: 0 <= i < |s| ==> s[i] == 0
      ensures BitAt(s, k) == 0
    {
      ShlZero(k % 8);
    }

    method IsFree(u: nat) returns (r: bool)
      requires u < 8 * map'.Length
      ensures r <==> !InUse(map'[..], u)
    {
      r := Shr(map'[u / 8], u % 8) % 2 == 0;
    }

    method SetFree(u: nat, free: bool)
      requires u < 8 * map'.Length
      modifies map'
      ensures map'[..] == SetUnit(old(map'[..]), u, free)
    {
      hide Or, AndNot, Shl, InUse;
      var bit := if free then 0 else 1;
      UnitInUse(map'[..], u, bit);
      BitValue(map'[u / 8], u % 8, bit);
      var x := if free then AndNot(map'[u / 8], Shl(1, u % 8)) else Or(map'[u / 8], Shl(1, u % 8));
      map'[u / 8] := x;
    }

    method SetRun(u: nat, n: nat, free: bool)
      requires u + n <= 8 * map'.Length
      modifies map'
      ensures map'[..] == SetUnits(old(map'[..]), u, n, free)
    {
      hide InUse, SetUnit;
      ghost var m := map'[..];
      var i := 0;
      while i < n
        invariant i <= n && map'[..] == SetUnits(m, u, i, free)
      {
        SetFree(u + i, free);
        i := i + 1;
      }
    }

    /** The free bytes: what is not in use. */
    method GetFreeHeap() returns (free: nat)
      requires Valid()
      ensures free + UsedUnits(map'[..], entries) * HEAP_SEG_SIZE == entries * HEAP_SEG_SIZE
    {
      hide InUse, Owned;
      free := 0;
      var i := 0;
      while i < entries
        invariant i <= entries && free + UsedUnits(map'[..], i) * HEAP_SEG_SIZE == i * HEAP_SEG_SIZE
      {
        var f := IsFree(i);
        if f {
          free := free + HEAP_SEG_SIZE;
        }
        i := i + 1;
      }
    }

    /** The length of the free run at u, but no more than n. */
    method RunAt(u: nat, n: nat) returns (found: bool)
      requires Valid() && u < entries && n > 0
      ensures found <==> FreeRun(map'[..], entries, u, n)
    {
      hide InUse, Owned;
      found := false;
      var num := 0;
      var j := u;
      while j < entries
        invariant u <= j <= entries && num == j - u && num < n
        invariant forall k :: u <= k < j ==> !InUse(map'[..], k)
      {
        var f := IsFree(j);
        if !f {
          return;
        }
        num := num + 1;
        if num == n {
          return true;
        }
        j := j + 1;
      }
    }

    /** The lowest unit with n free units; none is found for n = 0. */
    method FindFreeUnits(n: nat) returns (found: bool, u: nat)
      requires Valid()
      ensures found <==> n > 0 && SomeRun(map'[..], entries, n)
      ensures found ==> u < entries && FreeRun(map'[..], entries, u, n) && forall k :: 0 <= k < u ==> !FreeRun(map'[..], entries, k, n)
    {
      hide Owned;
      var i := 0;
      while i < entries
        invariant i <= entries && (n > 0 ==> forall k :: 0 <= k < i ==> !FreeRun(map'[..], entries, k, n))
      {
        var f := IsFree(i);
        if f && n > 0 {
          var run := RunAt(i, n);
          if run {
            return true, i;
          }
        }
        i := i + 1;
      }
      found, u := false, 0;
    }

    function UnitsFor(size: nat): nat
    {
      CalcUnits((size + ENTRY_SIZE) % 0x1_0000_0000)
    }

    /** The lowest place with enough free units; fails only if there is none. The block is disjoint from
        all others. Adding the entry wraps at 2^32, and exactly then the block is too small. It lies inside
        the heap's memory if and only if some place in front of the last units was free. */
    method Kmalloc(size: nat) returns (ok: bool, ptr: nat, ghost u: nat)
      requires Valid() && size < 0x1_0000_0000
      modifies this`headers, this`live, map'
      ensures Valid()
      ensures var n := UnitsFor(size); ok <==> n > 0 && SomeRun(old(map'[..]), entries, n)
      ensures !ok ==> live == old(live) && map'[..] == old(map'[..])
      ensures ok ==>
                var n := UnitsFor(size);
                && (n * HEAP_SEG_SIZE >= ENTRY_SIZE + size <==> size + ENTRY_SIZE < 0x1_0000_0000)
                && FreeRun(old(map'[..]), entries, u, n) && (forall k :: 0 <= k < u ==> !FreeRun(old(map'[..]), entries, k, n))
                && u !in old(live) && live == old(live)[u := n] && ptr == heapBegin + u * HEAP_SEG_SIZE + ENTRY_SIZE
                && UsedUnits(map'[..], entries) == UsedUnits(old(map'[..]), entries) + n
                && (ptr - ENTRY_SIZE + n * HEAP_SEG_SIZE <= HeapEnd()
                    <==> exists v: nat :: v + n + MapUnits() <= entries && FreeRun(old(map'[..]), entries, v, n))
    {
      hide InUse, Owned, FreeRun, UsedUnits;
      var n := CalcUnits((size + ENTRY_SIZE) % 0x1_0000_0000);
      var found, start := FindFreeUnits(n);
      ok, ptr, u := found, 0, start;
      if !found {
        return;
      }
      ghost var m := map'[..];
      RunFits(m, entries, start, n);
      CalcExact((size + ENTRY_SIZE) % 0x1_0000_0000);
      SetRun(start, n, false);
      TakeOwned(m, map'[..], entries, live, start, n);
      ptr := heapBegin + start * HEAP_SEG_SIZE + ENTRY_SIZE;
      headers := headers[start := Entry(start, n)];
      live := live[start := n];
      BlockInside(start, n);
    }

    lemma BlockInside(u: nat, n: nat)
      ensures heapBegin + u * HEAP_SEG_SIZE + n * HEAP_SEG_SIZE <= HeapEnd() <==> u + n + MapUnits() <= entries
    {
    }

    /** Frees a live block: its units become free, and nothing else changes. */
    method Kfree(ptr: nat, ghost u: nat)
      requires Valid() && (ptr != 0 ==> u in live && ptr == heapBegin + u * HEAP_SEG_SIZE + ENTRY_SIZE)
      modifies this`live, map'
      ensures Valid()
      ensures ptr == 0 ==> live == old(live) && map'[..] == old(map'[..])
      ensures ptr != 0 ==> live == old(live) - {u}
                           && UsedUnits(old(map'[..]), entries) == UsedUnits(map'[..], entries) + old(live)[u]
    {
      hide InUse, Owned, UsedUnits;
      if ptr == 0 {
        return;
      }
      UnitOf(u);
      var slot := (ptr - ENTRY_SIZE - heapBegin) / HEAP_SEG_SIZE;
      var entry := headers[slot];
      ghost var m := map'[..];
      BlockFits(m, entries, live, u);
      SetRun(entry.idx, entry.size, true);
      GiveOwned(m, map'[..], entries, live, u);
      live := live - {u};
    }

    lemma UnitOf(u: nat)
      ensures (heapBegin + u * HEAP_SEG_SIZE + ENTRY_SIZE - ENTRY_SIZE - heapBegin) / HEAP_SEG_SIZE == u
    {
    }
  }

  // ---------- who owns which units ----------

  /** A 32-bit number as an int. */
  function Signed(x: int): int
  {
    if x >= 0x8000_0000 then x - 0x1_0000_0000 else x
  }

  /** calc_num_alloc_units: computed in int, with division towards zero, and used as an unsigned number. */
  function CalcUnits(bytes: nat): nat
    requires bytes < 0x1_0000_0000
  {
    var t := Signed(Signed(bytes) + HEAP_SEG_SIZE - 1);
    if t >= 0 then t / HEAP_SEG_SIZE
    else if -t < HEAP_SEG_SIZE then 0 else 0x1_0000_0000 - (-t) / HEAP_SEG_SIZE
  }

  /** The units that the bytes need, if the number is positive as an int; otherwise none, or more than any
      heap has. */
  lemma CalcExact(bytes: nat)
    requires bytes < 0x1_0000_0000
    ensures var n := CalcUnits(bytes);
            if bytes < 0x8000_0000 - 127 then
              (n - 1) * HEAP_SEG_SIZE < bytes <= n * HEAP_SEG_SIZE || (bytes == 0 == n)
            else n == 0 || n * HEAP_SEG_SIZE >= 0x1_0000_0000
  {
  }

  lemma RunFits(map': seq<byte>, entries: nat, u: nat, n: nat)
    requires FreeRun(map', entries, u, n)
    ensures u + n <= entries
  {
  }

  lemma BlockFits(map': seq<byte>, entries: nat, live: map<nat, nat>, u: nat)
    requires Owned(map', entries, live) && u in live
    ensures u + live[u] <= entries
  {
  }

  lemma TakeOwned(a: seq<byte>, b: seq<byte>, entries: nat, live: map<nat, nat>, u: nat, n: nat)
    requires Owned(a, entries, live) && FreeRun(a, entries, u, n) && n > 0
    requires forall k: nat :: InUse(b, k) <==> if u <= k < u + n then true else InUse(a, k)
    ensures u !in live && Owned(b, entries, live[u := n])
    ensures UsedUnits(b, entries) == UsedUnits(a, entries) + n
  {
    hide InUse, UsedUnits;
    assert !InUse(a, u);
    NotCovered(live, u);
    UsedAfter(a, b, u, n, entries);
    var live' := live[u := n];
    forall x | x in live
      ensures x + live[x] <= u || u + n <= x
    {
      NotCovered(live, x);
    }
    forall k: nat | k < entries
      ensures InUse(b, k) <==> Covered(live', k)
    {
      CoveredMore(live, u, n, k);
    }
  }

  lemma NotCovered(live: map<nat, nat>, k: nat)
    ensures !Covered(live, k) ==> forall x :: x in live ==> k < x || x + live[x] <= k
    ensures k in live && live[k] > 0 ==> Covered(live, k)
  {
  }

  lemma CoveredMore(live: map<nat, nat>, u: nat, n: nat, k: nat)
    requires u !in live
    ensures Covered(live[u := n], k) <==> (u <= k < u + n || Covered(live, k))
  {
    var live' := live[u := n];
    if u <= k < u + n {
      assert u in live' && u <= k < u + live'[u];
    } else if Covered(live, k) {
      var x :| x in live && x <= k < x + live[x];
      assert x in live' && x <= k < x + live'[x];
    }
  }

  lemma GiveOwned(a: seq<byte>, b: seq<byte>, entries: nat, live: map<nat, nat>, u: nat)
    requires Owned(a, entries, live) && u in live
    requires forall k: nat :: InUse(b, k) <==> if u <= k < u + live[u] then false else InUse(a, k)
    ensures Owned(b, entries, live - {u})
    ensures UsedUnits(a, entries) == UsedUnits(b, entries) + live[u]
  {
    hide InUse, UsedUnits;
    var n := live[u];
    var live' := live - {u};
    forall k: nat | u <= k < u + n
      ensures InUse(a, k)
    {
      assert Covered(live, k);
    }
    UsedAfter(b, a, u, n, entries);
    forall k: nat | k < entries
      ensures InUse(b, k) <==> Covered(live', k)
    {
      if Covered(live', k) {
        var x :| x in live' && x <= k < x + live'[x];
        assert x in live && x <= k < x + live[x];
        assert Covered(live, k);
      }
      if InUse(b, k) {
        assert Covered(live, k);
        var x :| x in live && x <= k < x + live[x];
        assert x in live' && x <= k < x + live'[x];
      }
    }
  }

  /** The map lies at the start of the memory of the heap, and the units start behind it: the last units
      lie past its end, those whose index is more than entries less the units the map takes. */
  lemma LastUnits(heapBase: nat, heapSize: nat, u: nat)
    requires heapSize % 1024 == 0 && u < heapSize / HEAP_SEG_SIZE
    ensures var entries := heapSize / HEAP_SEG_SIZE; var begin := heapBase + entries / 8;
            begin + (u + 1) * HEAP_SEG_SIZE <= heapBase + heapSize <==> u + 1 + (entries / 8 + 127) / 128 <= entries
  {
    var entries := heapSize / HEAP_SEG_SIZE;
    assert heapSize == entries * HEAP_SEG_SIZE;
  }

  /** A heap of 1024 bytes and a request of 1016: the block is given, and its last byte lies one past the end
      of the heap. */
  method LastByteOutside(heapBase: nat) returns (ok: bool, ptr: nat)
    ensures ok && ptr + 1016 == heapBase + 1024 + 1
  {
    hide KernelHeap.UnitsFor;
    var heap := new KernelHeap(heapBase, 1024);
    EightUnits(heap);
    assert FreeRun(heap.map'[..], heap.entries, 0, 8);
    ghost var u;
    ok, ptr, u := heap.Kmalloc(1016);
  }

  lemma EightUnits(heap: KernelHeap)
    ensures heap.UnitsFor(1016) == 8
  {
  }
}
