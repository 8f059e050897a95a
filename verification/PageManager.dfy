/**
 The page frame allocator: one cell per frame, and a hint below which no frame is free.
 */
module PageManagers {

  const PAGE_SIZE: nat := 4096
  const PAGE_FREE: nat := 0
  const PAGE_USED: nat := 1

  /** Frames i .. i + n - 1 are not in use. */
  ghost predicate FreeRun(map': seq<nat>, i: nat, n: nat)
  {
    i + n <= |map'| && forall k :: i <= k < i + n ==> map'[k] != PAGE_USED
  }

  /** The map with frames i .. i + n - 1 in use. */
  function Taken(map': seq<nat>, i: nat, n: nat): (r: seq<nat>)
    requires i + n <= |map'|
    ensures |r| == |map'|
    ensures forall k :: 0 <= k < |r| ==> r[k] == if i <= k < i + n then PAGE_USED else map'[k]
  {
    map'[..i] + seq(n, k => PAGE_USED) + map'[i + n..]
  }

  /** The frames i .. i + n - 1. */
  ghost function Frames(i: nat, n: nat): (s: set<nat>)
    ensures forall k: nat :: k in s <==> i <= k < i + n
  {
    if n == 0 then {} else Frames(i, n - 1) + {i + n - 1}
  }

  class PageManager {
    /** One cell per frame; what lies behind it in memory can be looked at, too. */
    const frameMap: array<nat>
    const numPages: nat
    const base: nat
    var lastPageIdx: nat
    /** Frames that were handed out and not given back. */
    ghost var owned: set<nat>

    ghost predicate Valid()
      reads this, frameMap
    {
      && numPages < frameMap.Length && lastPageIdx <= numPages
      && (forall k :: 0 <= k < frameMap.Length ==> frameMap[k] == PAGE_FREE || frameMap[k] == PAGE_USED)
      && (forall k :: 0 <= k < lastPageIdx ==> frameMap[k] == PAGE_USED)
      && (forall k :: k in owned ==> k < frameMap.Length && frameMap[k] == PAGE_USED)
    }

    constructor (frameMap: array<nat>, numPages: nat, base: nat)
      requires numPages < frameMap.Length && forall k :: 0 <= k < frameMap.Length ==> frameMap[k] == PAGE_FREE || frameMap[k] == PAGE_USED
      ensures Valid() && owned == {} && this.frameMap == frameMap && this.numPages == numPages && this.base == base
    {
      this.frameMap, this.numPages, this.base, lastPageIdx := frameMap, numPages, base, 0;
      owned := {};
    }

    function Address(i: nat): nat
    {
      base + i * PAGE_SIZE
    }

    /** One frame, the lowest free one. It fails only if no frame is free, although the search starts at the
        hint; and it never hands out a frame that somebody has. */
    method AllocPageframe() returns (ok: bool, frame: nat, ghost i: nat)
      requires Valid()
      modifies this, frameMap
      ensures Valid()
      ensures ok <==> exists k :: 0 <= k < numPages && old(frameMap[k]) == PAGE_FREE
      ensures !ok ==> frameMap[..] == old(frameMap[..]) && owned == old(owned)
      ensures ok ==> i < numPages && frame == Address(i) && old(frameMap[i]) == PAGE_FREE && i !in old(owned)
      ensures ok ==> forall k :: 0 <= k < i ==> old(frameMap[k]) == PAGE_USED
      ensures ok ==> frameMap[..] == Taken(old(frameMap[..]), i, 1) && owned == old(owned) + {i}
    {
      var n := lastPageIdx;
      while n < numPages
        invariant n <= numPages && Valid() && owned == old(owned) && frameMap[..] == old(frameMap[..])
        invariant forall k :: 0 <= k < n ==> frameMap[k] == PAGE_USED
      {
        if frameMap[n] == PAGE_FREE {
          frameMap[n] := PAGE_USED;
          lastPageIdx := n;
          owned := owned + {n};
          assert frameMap[..] == Taken(old(frameMap[..]), n, 1);
          return true, base + n * PAGE_SIZE, n;
        }
        n := n + 1;
      }
      ok, frame, i := false, 0, 0;
    }

    method RunIsFree(i: nat, pages: nat) returns (found: bool)
      requires Valid() && i + pages <= frameMap.Length
      ensures found <==> FreeRun(frameMap[..], i, pages)
    {
      var j := 0;
      while j < pages
        invariant j <= pages && forall k :: i <= k < i + j ==> frameMap[k] != PAGE_USED
      {
        if frameMap[i + j] == PAGE_USED {
          assert frameMap[..][i + j] == PAGE_USED;
          return false;
        }
        j := j + 1;
      }
      found := true;
    }

    method TakeRun(i: nat, pages: nat)
      requires Valid() && i + pages <= frameMap.Length
      modifies this`owned, frameMap
      ensures Valid() && frameMap[..] == Taken(old(frameMap[..]), i, pages)
      ensures owned == old(owned) + Frames(i, pages)
    {
      ghost var map0 := frameMap[..];
      var j := 0;
      while j < pages
        invariant j <= pages && Valid() && owned == old(owned)
        invariant forall k :: 0 <= k < frameMap.Length ==> frameMap[k] == if i <= k < i + j then PAGE_USED else map0[k]
      {
        frameMap[i + j] := PAGE_USED;
        j := j + 1;
      }
      owned := owned + Frames(i, pages);
      assert frameMap[..] == Taken(map0, i, pages);
    }

    /** Consecutive frames: the lowest free run that starts inside the map. The search does not stop where
        the map ends, so the run may reach past it (`RunPastEnd`). */
    method AllocContinuous(pages: nat) returns (ok: bool, frame: nat, ghost i: nat)
      requires Valid() && numPages + pages <= frameMap.Length
      modifies this`owned, frameMap
      ensures Valid()
      ensures ok <==> exists k :: 0 <= k < numPages && FreeRun(old(frameMap[..]), k, pages)
      ensures !ok ==> frameMap[..] == old(frameMap[..]) && owned == old(owned)
      ensures ok ==> i < numPages && frame == Address(i) && FreeRun(old(frameMap[..]), i, pages)
      ensures ok ==> forall k :: 0 <= k < i ==> !FreeRun(old(frameMap[..]), k, pages)
      ensures ok ==> frameMap[..] == Taken(old(frameMap[..]), i, pages) && owned == old(owned) + Frames(i, pages)
      ensures ok ==> forall k :: i <= k < i + pages ==> k !in old(owned)
    {
      var n := 0;
      while n < numPages
        invariant n <= numPages && Valid() && owned == old(owned) && frameMap[..] == old(frameMap[..])
        invariant forall k :: 0 <= k < n ==> !FreeRun(frameMap[..], k, pages)
      {
        var found := RunIsFree(n, pages);
        if found {
          TakeRun(n, pages);
          return true, base + n * PAGE_SIZE, n;
        }
        n := n + 1;
      }
      ok, frame, i := false, 0, 0;
    }

    /** (frame - base) / PAGE_SIZE, in 32 bits. */
    function Index(frame: nat): nat
    {
      (frame + 0x1_0000_0000 - base % 0x1_0000_0000) % 0x1_0000_0000 / PAGE_SIZE
    }

    lemma IndexOfAddress(i: nat)
      requires i * PAGE_SIZE < 0x1_0000_0000
      ensures Index(Address(i)) == i
    {
      var b := base % 0x1_0000_0000;
      assert base == 0x1_0000_0000 * (base / 0x1_0000_0000) + b;
      var x := Address(i) + 0x1_0000_0000 - b;
      assert x == i * PAGE_SIZE + 0x1_0000_0000 * (base / 0x1_0000_0000 + 1);
      WholeTurns(i * PAGE_SIZE, base / 0x1_0000_0000 + 1);
    }

    lemma AddressIndex(frame: nat)
      ensures forall i: nat :: frame == Address(i) && i * PAGE_SIZE < 0x1_0000_0000 ==> Index(frame) == i
    {
      hide Index;
      forall i: nat | frame == Address(i) && i * PAGE_SIZE < 0x1_0000_0000
        ensures Index(frame) == i
      {
        IndexOfAddress(i);
      }
    }

    lemma {:induction false} WholeTurns(x: nat, q: nat)
      requires x < 0x1_0000_0000
      ensures (x + 0x1_0000_0000 * q) % 0x1_0000_0000 == x
    {
      if q > 0 {
        WholeTurns(x, q - 1);
      }
    }

    /** The last index that is not ignored is one past the map. */
    method MarkPageframeAsUsed(frame: nat)
      requires Valid()
      modifies frameMap
      ensures Valid()
      ensures frameMap[..] == if Index(frame) > numPages then old(frameMap[..]) else Taken(old(frameMap[..]), Index(frame), 1)
      ensures forall i: nat :: frame == Address(i) && i <= numPages && i * PAGE_SIZE < 0x1_0000_0000 ==>
                i < frameMap.Length && frameMap[..] == Taken(old(frameMap[..]), i, 1)
    {
      AddressIndex(frame);
      var idx := Index(frame);
      if idx > numPages {
        return;
      }
      frameMap[idx] := PAGE_USED;
      assert frameMap[..] == Taken(old(frameMap[..]), idx, 1);
    }

    /** A frame given back lowers the hint if need be. */
    method FreePageframe(frame: nat)
      requires Valid()
      modifies this, frameMap
      ensures Valid()
      ensures var idx := Index(frame);
              if idx > numPages then frameMap[..] == old(frameMap[..]) && owned == old(owned)
              else frameMap[..] == old(frameMap[..])[idx := PAGE_FREE] && owned == old(owned) - {idx}
      ensures forall i: nat :: frame == Address(i) && i <= numPages && i * PAGE_SIZE < 0x1_0000_0000 ==>
                i < frameMap.Length && frameMap[..] == old(frameMap[..])[i := PAGE_FREE] && owned == old(owned) - {i}
    {
      AddressIndex(frame);
      var idx := Index(frame);
      if idx > numPages {
        return;
      }
      if idx < lastPageIdx {
        lastPageIdx := idx;
      }
      frameMap[idx] := PAGE_FREE;
      owned := owned - {idx};
    }
  }

  /** When AllocContinuous returns a run that reaches past the map: exactly when no run inside it is free,
      and a run that starts inside it is. */
  lemma RunPastEnd(map': seq<nat>, numPages: nat, pages: nat, i: nat)
    requires i < numPages && numPages + pages <= |map'| && FreeRun(map', i, pages)
    requires forall k :: 0 <= k < i ==> !FreeRun(map', k, pages)
    ensures i + pages > numPages <==> forall k :: 0 <= k && k + pages <= numPages ==> !FreeRun(map', k, pages)
  {
  }

  /** Two pages, the first in use, and a free cell behind them: the run of two that is found lies half
      outside. */
  lemma RunPastEndExample()
    ensures var map' := [PAGE_USED, PAGE_FREE, PAGE_FREE, PAGE_FREE];
            FreeRun(map', 1, 2) && !FreeRun(map', 0, 2) && 1 < 2 && 1 + 2 > 2
  {
    var map' := [PAGE_USED, PAGE_FREE, PAGE_FREE, PAGE_FREE];
    assert map'[0] == PAGE_USED;
  }
}
