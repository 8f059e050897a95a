/**
 The hash chains of the LZ77 encoder.

 The chains are indexed by position modulo the window; a chain may be stale, because slots are
 reused. What the encoder relies on is only this: every slot that a chain can lead to has been
 written, the position last written to a slot is known from the slot number, and `zeros` counts
 real zero bytes at that position.
 */
module LzHashes {
  import opened Bits
  import opened Lz77
  import opened LzChains

  const HASH_NUM_VALUES: nat := 65536

  // ---------- positions in the window ----------

  /** The distance between two positions less than a window apart, from their slots. */
  lemma SlotDistance(p: nat, pos: nat, k: nat)
    requires p <= pos < p + Pow2(k)
    ensures pos - p == if Low(p, k) <= Low(pos, k) then Low(pos, k) - Low(p, k)
                       else Low(pos, k) - Low(p, k) + Pow2(k)
  {
    var w := Pow2(k);
    LowHigh(p, k);
    LowHigh(pos, k);
    LowBound(p, k);
    LowBound(pos, k);
    var a, b := Shr(p, k), Shr(pos, k);
    if b > a {
      ShlMono(a + 1, b, k);
      ShlAdd(a, 1, k);
      ShlOne(k);
    } else if b < a {
      ShlMono(b, a, k);
    }
  }

  // ---------- zero runs ----------

  /** The n bytes at p are zero, and lie before the end. */
  ghost predicate Zeros(data: seq<byte>, end: nat, p: nat, n: nat)
  {
    end <= |data| && p + n <= end && n <= MAX_LENGTH && forall q :: p <= q < p + n ==> data[q] == 0
  }

  /** How many zero bytes there are at pos, up to the longest match and the end. */
  method CountZeros(data: seq<byte>, size: nat, pos: nat) returns (n: nat)
    requires pos <= size <= |data|
    ensures Zeros(data, size, pos, n)
    ensures n < MAX_LENGTH && pos + n < size ==> data[pos + n] != 0
  {
    var end := if pos + MAX_LENGTH > size then size else pos + MAX_LENGTH;
    var p := pos;
    while p != end && data[p] == 0
      invariant pos <= p <= end && forall q :: pos <= q < p ==> data[q] == 0
      decreases end - p
    {
      p := p + 1;
    }
    n := p - pos;
  }

  /** The same number, counted from the start. */
  function ZeroRun(data: seq<byte>, end: nat, p: nat, most: nat): (n: nat)
    requires end <= |data|
    ensures n <= most && (p <= end ==> p + n <= end)
    decreases most
  {
    if most > 0 && p < end && data[p] == 0 then 1 + ZeroRun(data, end, p + 1, most - 1) else 0
  }

  lemma {:induction false} ZeroRunStops(data: seq<byte>, end: nat, p: nat, most: nat)
    requires p <= end <= |data|
    ensures var n := ZeroRun(data, end, p, most);
            && (forall q :: p <= q < p + n ==> data[q] == 0) && (n < most && p + n < end ==> data[p + n] != 0)
    decreases most
  {
    if most > 0 && p < end && data[p] == 0 {
      ZeroRunStops(data, end, p + 1, most - 1);
    }
  }

  /** A run that is zero and stops there is that long. */
  lemma ZeroRunIs(data: seq<byte>, end: nat, p: nat, n: nat)
    requires Zeros(data, end, p, n) && (n < MAX_LENGTH && p + n < end ==> data[p + n] != 0)
    ensures n == ZeroRun(data, end, p, MAX_LENGTH)
  {
    ZeroRunStops(data, end, p, MAX_LENGTH);
  }

  // ---------- hash values ----------

  /** a ^ b */
  function Xor(a: nat, b: nat): nat
  {
    if a == 0 && b == 0 then 0 else (a + b) % 2 + 2 * Xor(a / 2, b / 2)
  }

  /** The hash of the next three bytes; of what is left of them near the end. */
  function HashAt(data: seq<byte>, size: nat, pos: nat): nat
    requires size <= |data|
  {
    Low(if pos + 2 < size then Xor(Xor(data[pos], Shl(data[pos + 1], 4)), Shl(data[pos + 2], 8))
        else if pos >= size then 0
        else if pos + 1 < size then Xor(data[pos], Shl(data[pos + 1], 8))
        else data[pos], 16)
  }

  lemma {:induction false} XorZero(a: nat)
    ensures Xor(0, a) == a && Xor(a, 0) == a
  {
    if a > 0 {
      XorZero(a / 2);
    }
  }

  method GetHash(data: seq<byte>, size: nat, pos: nat) returns (h: nat)
    requires size <= |data|
    ensures h == HashAt(data, size, pos) < HASH_NUM_VALUES
  {
    hide Xor, Low, Shl;
    h := 0;
    HashBound(h);
    if pos + 2 < size {
      XorZero(data[pos]);
      h := Xor(h, data[pos]);
      h := Xor(h, Shl(data[pos + 1], 4));
      h := Xor(h, Shl(data[pos + 2], 8));
    } else if pos < size {
      XorZero(data[pos]);
      ShlNone(data[pos]);
      h := Xor(h, Shl(data[pos], 0));
      if pos + 1 < size {
        h := Xor(h, Shl(data[pos + 1], 8));
      }
    }
    HashBound(h);
    h := Low(h, 16);
  }

  /** The zeros that are counted at a position: none if its hash is not zero. */
  function ZerosAt(data: seq<byte>, size: nat, pos: nat): (n: nat)
    requires size <= |data|
    ensures n <= MAX_LENGTH
  {
    if HashAt(data, size, pos) == 0 then ZeroRun(data, size, pos, MAX_LENGTH) else 0
  }

  lemma ZerosAtAreZeros(data: seq<byte>, size: nat, pos: nat)
    requires pos <= size <= |data|
    ensures Zeros(data, size, pos, ZerosAt(data, size, pos)) && Zeros(data, |data|, pos, ZerosAt(data, size, pos))
  {
    hide HashAt;
    ZeroRunStops(data, size, pos, MAX_LENGTH);
  }

  /** The bytes 1, 2 and 3 in front of others, and at the end of the data. */
  lemma HashExample(more: byte)
    ensures HashAt([1, 2, 3, more], 4, 0) == 801 && HashAt([1, 2, 3], 2, 0) == 513 && HashAt([1, 2, 3], 1, 0) == 1
    ensures HashAt([1, 2, 3], 3, 3) == 0
  {
    hide Xor, Low, Shl;
    SmallHashes();
    HashBound(801);
    LowSmallHash(801);
    LowSmallHash(513);
    LowSmallHash(1);
    LowSmallHash(0);
  }

  /** Without bits in common, exclusive or is addition. */
  lemma {:induction false} XorShifted(a: nat, b: nat, k: nat)
    requires a < Pow2(k)
    ensures Xor(a, Shl(b, k)) == a + Shl(b, k)
  {
    if k == 0 {
      XorZero(b);
    } else {
      XorShifted(a / 2, b, k - 1);
    }
  }

  lemma SmallHashes()
    ensures Xor(Xor(1, Shl(2, 4)), Shl(3, 8)) == 801 && Xor(1, Shl(2, 8)) == 513
  {
    hide Xor;
    XorShifted(1, 2, 4);
    XorShifted(33, 3, 8);
    XorShifted(1, 2, 8);
    SmallShifts();
  }

  lemma SmallShifts()
    ensures Shl(2, 4) == 32 && Shl(3, 8) == 768 && Shl(2, 8) == 512 && Pow2(4) == 16 && Pow2(8) == 256
  {
    assert Shl(3, 4) == 48;
    ShlShl(3, 4, 4);
    ShlShl(2, 4, 4);
  }

  lemma LowSmallHash(x: nat)
    requires x < 1024
    ensures Low(x, 16) == x
  {
    assert Pow2(10) == 1024;
    Pow2Mono(10, 16);
    LowSmall(x, 16);
  }

  lemma ShlNone(x: nat)
    ensures Shl(x, 0) == x
  {
  }

  lemma HashBound(x: nat)
    ensures Low(x, 16) < HASH_NUM_VALUES
  {
    LowBound(x, 16);
    assert Pow2(4) == 16;
    assert Pow2(8) == 256;
    assert Pow2(12) == 4096;
    assert Pow2(16) == 65536;
  }

  // ---------- the chains ----------

  /** All that a hash holds; slot s was last written by position posOf[s]. */
  datatype State = State(head: seq<int>, chain: seq<nat>, val: seq<int>, headz: seq<int>, chainz: seq<nat>, zeros: seq<nat>,
                         posOf: seq<nat>)

  ghost predicate Chained(h: State, n: nat, goneval: int, gonezeros: int)
  {
    && |h.head| == HASH_NUM_VALUES && |h.headz| == MAX_LENGTH + 1
    && Slots(h.posOf, |h.posOf|, n)
    && Heads(h.val, h.head, h.posOf, |h.posOf|, n, goneval) && Links(h.val, h.chain, h.posOf, |h.posOf|, n)
    && Heads(h.zeros, h.headz, h.posOf, |h.posOf|, n, gonezeros) && Links(h.zeros, h.chainz, h.posOf, |h.posOf|, n)
  }

  /** What the slots hold for positions from inpos on is the hash and the zeros there. */
  ghost predicate Exact(h: State, data: seq<byte>, size: nat, inpos: nat, n: nat)
  {
    && size <= |data| && |h.val| == |h.zeros| == |h.posOf|
    && forall s: nat :: s < |h.posOf| && s < n && h.posOf[s] >= inpos ==>
         h.val[s] == HashAt(data, size, h.posOf[s]) && h.zeros[s] == ZerosAt(data, size, h.posOf[s])
  }

  /** Positions up to n - 1 are in their chains; `pending` if the heads of the last one were taken back. */
  ghost predicate Linking(h: State, data: seq<byte>, size: nat, inpos: nat, n: nat, pending: bool)
  {
    && Exact(h, data, size, inpos, n) && inpos <= n && (pending ==> inpos < n)
    && Chained(h, n, if pending then HashAt(data, size, n - 1) else -1, if pending then ZerosAt(data, size, n - 1) else -1)
  }

  /** The slot for position pos, which is the next one or the last one again. */
  ghost predicate SlotFor(h: State, slot: nat, pos: nat, n: nat)
  {
    && slot < |h.posOf| && slot <= pos && (pos == n || pos + 1 == n)
    && if pos + 1 == n then h.posOf[slot] == pos
       else (n < |h.posOf| ==> slot == n) && (slot < n ==> h.posOf[slot] + |h.posOf| == n)
  }

  /** What updateHashChain leaves behind. */
  function Inserted(h: State, slot: nat, hashval: nat, numzeros: nat, pos: nat): State
    requires slot < |h.chain| == |h.chainz| == |h.val| == |h.zeros| == |h.posOf|
    requires hashval < |h.head| && numzeros < |h.headz| && h.head[hashval] >= -1 && h.headz[numzeros] >= -1
  {
    State(h.head[hashval := slot], Linked(h.chain, h.head, slot, hashval), h.val[slot := hashval],
          h.headz[numzeros := slot], Linked(h.chainz, h.headz, slot, numzeros), h.zeros[slot := numzeros],
          h.posOf[slot := pos])
  }

  lemma NextKey(h: State, slot: nat, pos: nat, n: nat, key: seq<int>, head: seq<int>, link: seq<nat>, k: nat)
    requires Slots(h.posOf, |h.posOf|, n) && SlotFor(h, slot, pos, n) && pos == n && k < |head| && head[k] >= -1
    requires Heads(key, head, h.posOf, |h.posOf|, n, -1) && Links(key, link, h.posOf, |h.posOf|, n)
    ensures Heads(key[slot := k], head[k := slot], h.posOf[slot := pos], |h.posOf|, n + 1, -1)
    ensures Links(key[slot := k], Linked(link, head, slot, k), h.posOf[slot := pos], |h.posOf|, n + 1)
  {
    hide Heads, Links, Linked;
    NewHeads(key, head, h.posOf, |h.posOf|, n, slot, k);
    NewLinks(key, head, link, h.posOf, |h.posOf|, n, slot, k);
  }

  lemma SameKey(h: State, slot: nat, pos: nat, n: nat, key: seq<int>, head: seq<int>, link: seq<nat>, k: nat)
    requires Slots(h.posOf, |h.posOf|, n) && SlotFor(h, slot, pos, n) && pos + 1 == n && k < |head|
    requires Heads(key, head, h.posOf, |h.posOf|, n, k) && Links(key, link, h.posOf, |h.posOf|, n) && key[slot] == k
    ensures key[slot := k] == key && h.posOf[slot := pos] == h.posOf && head[k] == -1
    ensures Heads(key[slot := k], head[k := slot], h.posOf[slot := pos], |h.posOf|, n, -1)
    ensures Links(key[slot := k], Linked(link, head, slot, k), h.posOf[slot := pos], |h.posOf|, n)
  {
    AgainHeads(key, head, h.posOf, |h.posOf|, n, slot);
  }

  lemma PositionsAfter(h: State, slot: nat, pos: nat, n: nat)
    requires Slots(h.posOf, |h.posOf|, n) && SlotFor(h, slot, pos, n)
    ensures Slots(h.posOf[slot := pos], |h.posOf|, pos + 1)
  {
    if pos == n {
      var posOf' := h.posOf[slot := pos];
      forall s, t | 0 <= s < t < |posOf'| && t < n + 1
        ensures posOf'[s] != posOf'[t]
      {
        if s == slot || t == slot { assert posOf'[s] == n || posOf'[t] == n; }
      }
      forall s | 0 <= s < |posOf'| && s < n + 1
        ensures posOf'[s] < n + 1 <= posOf'[s] + |posOf'|
      {
        if s != slot { OldestGoes(h.posOf, |h.posOf|, n, slot, s); }
      }
    } else {
      assert h.posOf[slot := pos] == h.posOf;
    }
  }

  lemma ExactAfter(h: State, data: seq<byte>, size: nat, inpos: nat, n: nat, slot: nat, pos: nat)
    requires Exact(h, data, size, inpos, n) && SlotFor(h, slot, pos, n) && |h.val| == |h.chain| == |h.chainz|
    requires HashAt(data, size, pos) < |h.head| && ZerosAt(data, size, pos) < |h.headz|
    requires h.head[HashAt(data, size, pos)] >= -1 && h.headz[ZerosAt(data, size, pos)] >= -1
    ensures Exact(Inserted(h, slot, HashAt(data, size, pos), ZerosAt(data, size, pos), pos), data, size, inpos, pos + 1)
  {
    hide HashAt, ZerosAt;
  }

  /** Inserting a position, the next one or again the one whose heads were taken back, keeps the chains. */
  lemma InsertKeeps(h: State, data: seq<byte>, size: nat, inpos: nat, n: nat, slot: nat, pos: nat)
    requires Linking(h, data, size, inpos, n, pos + 1 == n) && SlotFor(h, slot, pos, n) && inpos <= pos
    requires HashAt(data, size, pos) < HASH_NUM_VALUES
    requires h.head[HashAt(data, size, pos)] >= -1 && h.headz[ZerosAt(data, size, pos)] >= -1
    ensures |h.chain| == |h.chainz| == |h.val| == |h.zeros| == |h.posOf|
    ensures Linking(Inserted(h, slot, HashAt(data, size, pos), ZerosAt(data, size, pos), pos), data, size, inpos, pos + 1, false)
  {
    hide HashAt, ZerosAt, Heads, Links, Linked, Slots, Exact, SlotFor;
    ExactSizes(h, data, size, inpos, n);
    var v, z := HashAt(data, size, pos), ZerosAt(data, size, pos);
    InsertSizes(h, n, if pos + 1 == n then v else -1, if pos + 1 == n then z else -1, slot, pos);
    PositionsAfter(h, slot, pos, n);
    ExactAfter(h, data, size, inpos, n, slot, pos);
    if pos == n {
      NextKey(h, slot, pos, n, h.val, h.head, h.chain, v);
      NextKey(h, slot, pos, n, h.zeros, h.headz, h.chainz, z);
    } else {
      ExactSlot(h, data, size, inpos, n, slot, pos);
      SameKey(h, slot, pos, n, h.val, h.head, h.chain, v);
      SameKey(h, slot, pos, n, h.zeros, h.headz, h.chainz, z);
    }
  }

  lemma InsertSizes(h: State, n: nat, gv: int, gz: int, slot: nat, pos: nat)
    requires Chained(h, n, gv, gz) && SlotFor(h, slot, pos, n)
    ensures |h.chain| == |h.chainz| == |h.val| == |h.zeros| == |h.posOf| && slot < |h.posOf| && (pos == n || pos + 1 == n)
  {
  }

  lemma ExactSizes(h: State, data: seq<byte>, size: nat, inpos: nat, n: nat)
    requires Exact(h, data, size, inpos, n)
    ensures size <= |data| && |h.val| == |h.zeros| == |h.posOf|
  {
  }

  lemma ExactSlot(h: State, data: seq<byte>, size: nat, inpos: nat, n: nat, slot: nat, pos: nat)
    requires Exact(h, data, size, inpos, n) && SlotFor(h, slot, pos, n) && pos + 1 == n && inpos <= pos
    ensures h.val[slot] == HashAt(data, size, pos) && h.zeros[slot] == ZerosAt(data, size, pos)
  {
    hide HashAt, ZerosAt;
  }

  /** What is left when the heads of the last position are taken back. */
  function Forgotten(h: State, hashval: nat, numzeros: nat): State
    requires hashval < |h.head| && numzeros < |h.headz|
  {
    h.(head := h.head[hashval := -1], headz := h.headz[numzeros := -1])
  }

  lemma ForgetPends(h: State, data: seq<byte>, size: nat, inpos: nat, n: nat)
    requires Linking(h, data, size, inpos, n, false) && inpos < n && HashAt(data, size, n - 1) < |h.head|
    requires ZerosAt(data, size, n - 1) < |h.headz|
    ensures Linking(Forgotten(h, HashAt(data, size, n - 1), ZerosAt(data, size, n - 1)), data, size, inpos, n, true)
  {
    hide HashAt, ZerosAt, Heads, Links, Slots;
    GoneHead(h.val, h.head, h.posOf, |h.posOf|, n, HashAt(data, size, n - 1));
    GoneHead(h.zeros, h.headz, h.posOf, |h.posOf|, n, ZerosAt(data, size, n - 1));
  }

  /** Between two blocks: no position of the next one is in the slots yet. */
  lemma NextBlock(h: State, data: seq<byte>, size: nat, n: nat)
    requires Chained(h, n, -1, -1) && n <= size <= |data|
    ensures Linking(h, data, size, n, n, false)
  {
    hide HashAt, ZerosAt, Links;
  }

  lemma BlockDone(h: State, data: seq<byte>, size: nat, inpos: nat, n: nat)
    requires Linking(h, data, size, inpos, n, false)
    ensures Chained(h, n, -1, -1)
  {
  }

  class Hash {
    const windowsize: nat
    /** The window size is 2^bits whenever the encoder gets to use it. */
    ghost const bits: nat
    const head: array<int>
    const chain: array<nat>
    const val: array<int>
    const headz: array<int>
    const chainz: array<nat>
    const zeros: array<nat>
    /** The position last written to each slot. */
    ghost var posOf: seq<nat>

    ghost predicate Arrays()
    {
      && windowsize == Pow2(bits)
      && head.Length == HASH_NUM_VALUES && headz.Length == MAX_LENGTH + 1
      && chain.Length == val.Length == chainz.Length == zeros.Length == windowsize
      && head != headz && head != val && headz != val
      && chain != chainz && chain != zeros && chainz != zeros
    }

    ghost function Repr(): set<object>
    {
      {this, head, chain, val, headz, chainz, zeros}
    }

    ghost function Holds(): State
      reads this, head, chain, val, headz, chainz, zeros
    {
      State(head[..], chain[..], val[..], headz[..], chainz[..], zeros[..], posOf)
    }

    /** A slot that holds one of the positions before n. */
    ghost predicate Written(s: int, n: nat)
    {
      0 <= s < windowsize && s < n
    }

    /** Positions 0 .. n - 1 of the data have been inserted. */
    ghost predicate Valid(data: seq<byte>, n: nat)
      reads this, head, chain, val, headz, chainz, zeros
    {
      && Arrays() && |posOf| == windowsize
      && (forall h :: 0 <= h < HASH_NUM_VALUES ==> head[h] == -1 || Written(head[h], n))
      && (forall z :: 0 <= z <= MAX_LENGTH ==> headz[z] == -1 || Written(headz[z], n))
      && (forall s :: 0 <= s < windowsize ==> chain[s] == s || Written(chain[s], n))
      && (forall s :: 0 <= s < windowsize ==> chainz[s] == s || Written(chainz[s], n))
      && (forall s :: 0 <= s < windowsize && s < n ==> SlotOk(data, n, s, posOf[s], zeros[s]))
    }

    /** Slot s holds position p, the last one before n with that slot, and a true zero count. */
    ghost predicate SlotOk(data: seq<byte>, n: nat, s: nat, p: nat, z: nat)
    {
      && p < n <= p + windowsize && Low(p, bits) == s
      && Zeros(data, |data|, p, z)
    }

    constructor (windowsize: nat, ghost k: nat, ghost data: seq<byte>)
      ensures this.windowsize == windowsize && bits == k && fresh(Repr())
      ensures windowsize == Pow2(k) ==> Valid(data, 0)
      ensures Chained(Holds(), 0, -1, -1)
    {
      bits := k;
      this.windowsize := windowsize;
      head := new int[HASH_NUM_VALUES](_ => -1);
      val := new int[windowsize](_ => -1);
      chain := new nat[windowsize](i requires i >= 0 => i);
      zeros := new nat[windowsize];
      headz := new int[MAX_LENGTH + 1](_ => -1);
      chainz := new nat[windowsize](i requires i >= 0 => i);
      posOf := seq(windowsize, i => 0);
    }

    /** Inserts position pos, the next one or the last one again, with its hash and zero count. */
    method Update(wpos: nat, hashval: nat, numzeros: nat, ghost data: seq<byte>, ghost pos: nat, ghost n: nat)
      requires Valid(data, n) && wpos == Low(pos, bits) && wpos < windowsize
      requires hashval < HASH_NUM_VALUES && Zeros(data, |data|, pos, numzeros)
      requires pos == n || pos + 1 == n
      modifies this, head, chain, val, headz, chainz, zeros
      ensures Valid(data, pos + 1)
      ensures old(Insertable(wpos, hashval, numzeros)) && Holds() == Inserted(old(Holds()), wpos, hashval, numzeros, pos)
    {
      hide Low, Pow2, SlotOk, Zeros, Linked;
      ghost var posOf0, zeros0 := posOf, zeros[..];
      LowSlot(pos, bits);
      ZerosShort(data, |data|, pos, numzeros);
      ghost var zeros1 := zeros0[wpos := numzeros];
      SlotsAfter(data, posOf0, zeros0, n, pos, numzeros, posOf0[wpos := pos], zeros1, pos + 1);
      ghost var before := Holds();
      val[wpos] := hashval;
      LinkIn(head, chain, wpos, hashval, n, pos + 1);
      zeros[wpos] := numzeros;
      LinkIn(headz, chainz, wpos, numzeros, n, pos + 1);
      posOf := posOf[wpos := pos];
      assert zeros[..] == zeros1;
      assert Holds() == Inserted(before, wpos, hashval, numzeros, pos);
    }

    /** Puts a slot at the head of the chain of a key. */
    method LinkIn(head: array<int>, link: array<nat>, slot: nat, key: nat, ghost n: nat, ghost m: nat)
      requires key < head.Length && slot < link.Length == windowsize && head[key] >= -1 && n <= m && Written(slot, m)
      requires forall h :: 0 <= h < head.Length ==> head[h] == -1 || Written(head[h], n)
      requires forall s :: 0 <= s < windowsize ==> link[s] == s || Written(link[s], n)
      modifies head, link
      ensures forall h :: 0 <= h < head.Length ==> head[h] == -1 || Written(head[h], m)
      ensures forall s :: 0 <= s < windowsize ==> link[s] == s || Written(link[s], m)
      ensures link[..] == Linked(old(link[..]), old(head[..]), slot, key) && head[..] == old(head[..])[key := slot]
    {
      if head[key] != -1 { link[slot] := head[key]; }
      head[key] := slot;
    }

    ghost predicate Insertable(wpos: nat, hashval: nat, numzeros: nat)
      reads this, head, chain, val, headz, chainz, zeros
    {
      && wpos < chain.Length == chainz.Length == val.Length == zeros.Length == |posOf|
      && hashval < head.Length && numzeros < headz.Length && head[hashval] >= -1 && headz[numzeros] >= -1
    }

    lemma ZerosShort(data: seq<byte>, end: nat, p: nat, n: nat)
      requires Zeros(data, end, p, n)
      ensures n <= MAX_LENGTH
    {
    }

    /** All slots after position pos was written to its own. */
    lemma SlotsAfter(data: seq<byte>, posOf0: seq<nat>, zeros0: seq<nat>, n: nat, pos: nat, z: nat,
                     posOf1: seq<nat>, zeros1: seq<nat>, m: nat)
      requires |posOf0| == |zeros0| == windowsize == Pow2(bits) && (pos == n || pos + 1 == n) && m == pos + 1
      requires Low(pos, bits) < windowsize && Zeros(data, |data|, pos, z)
      requires posOf1 == posOf0[Low(pos, bits) := pos] && zeros1 == zeros0[Low(pos, bits) := z]
      requires forall t :: 0 <= t < windowsize && t < n ==> SlotOk(data, n, t, posOf0[t], zeros0[t])
      ensures forall s :: 0 <= s < windowsize && s < m ==> SlotOk(data, m, s, posOf1[s], zeros1[s])
    {
      hide Low;
      forall s: nat | s < windowsize && s < m
        ensures SlotOk(data, m, s, posOf1[s], zeros1[s])
      {
        if s != Low(pos, bits) {
          OtherSlot(data, posOf0, zeros0, n, pos, s);
        }
      }
    }

    /** The heads of the last insertion are taken back, because it will be done again. */
    method Forget(hashval: nat, numzeros: nat, ghost data: seq<byte>, ghost n: nat)
      requires Valid(data, n) && hashval < HASH_NUM_VALUES && numzeros <= MAX_LENGTH
      modifies head, headz
      ensures Valid(data, n)
      ensures Holds() == Forgotten(old(Holds()), hashval, numzeros)
    {
      head[hashval] := -1;
      headz[numzeros] := -1;
    }

    /** The slot of a position is free for it. */
    lemma SlotForPosition(data: seq<byte>, pos: nat, n: nat)
      requires Valid(data, n) && (pos == n || pos + 1 == n)
      ensures Low(pos, bits) < windowsize && SlotFor(Holds(), Low(pos, bits), pos, n)
    {
      hide Low, Pow2, Zeros;
      var s := Low(pos, bits);
      LowBound(pos, bits);
      LowSlot(pos, bits);
      if n < windowsize {
        LowSmall(n, bits);
      }
      if s < n {
        assert SlotOk(data, n, s, posOf[s], zeros[s]);
        SameSlot(posOf[s], pos, bits);
      }
    }

    /** Each of the last positions is in its slot. */
    lemma SlotOfPosition(data: seq<byte>, p: nat, n: nat)
      requires Valid(data, n) && p < n <= p + windowsize
      ensures var s := Low(p, bits); s < windowsize && s < n && |posOf| == windowsize && posOf[s] == p
    {
      hide Low, Pow2, Zeros;
      var s := Low(p, bits);
      LowBound(p, bits);
      LowSlot(p, bits);
      assert SlotOk(data, n, s, posOf[s], zeros[s]);
      if posOf[s] <= p { SameSlot(posOf[s], p, bits); } else { SameSlot(p, posOf[s], bits); }
    }

    /** Positions with the same slot that are at most a window apart. */
    lemma SameSlot(p: nat, q: nat, k: nat)
      requires Low(p, k) == Low(q, k) && p <= q <= p + Pow2(k)
      ensures q == p || q == p + Pow2(k)
    {
      if q < p + Pow2(k) {
        SlotDistance(p, q, k);
      }
    }

    lemma LowSlot(pos: nat, k: nat)
      ensures Low(pos, k) <= pos
    {
      LowHigh(pos, k);
    }

    /** The slots that pos does not use keep their last position. */
    lemma OtherSlot(data: seq<byte>, posOf0: seq<nat>, zeros0: seq<nat>, n: nat, pos: nat, s: nat)
      requires |posOf0| == |zeros0| == windowsize == Pow2(bits) && (pos == n || pos + 1 == n)
      requires s < windowsize && s < pos + 1 && s != Low(pos, bits)
      requires forall t :: 0 <= t < windowsize && t < n ==> SlotOk(data, n, t, posOf0[t], zeros0[t])
      ensures s < n && SlotOk(data, pos + 1, s, posOf0[s], zeros0[s])
    {
      if s == n {
        LowSmall(n, bits);
      }
      assert SlotOk(data, n, s, posOf0[s], zeros0[s]);
      if pos == n && posOf0[s] + windowsize == n {
        SlotWrap(posOf0[s], bits);
      }
    }

    /** A window further on, the slot is the same. */
    lemma {:induction false} SlotWrap(p: nat, k: nat)
      ensures Low(p + Pow2(k), k) == Low(p, k)
    {
      if k > 0 {
        assert (p + Pow2(k)) / 2 == p / 2 + Pow2(k - 1) && (p + Pow2(k)) % 2 == p % 2;
        SlotWrap(p / 2, k - 1);
      }
    }
  }
}
