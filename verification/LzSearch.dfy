/**
 The search for a match: a walk along the hash chains, or along the chains of equal zero counts once the match
 is longer than the zeros. Whatever the chains hold, what is found is a true match inside the window; and as
 the chains are linked, it is as long as any match that is not too far away, or long enough.
 */
module LzSearches {
  import opened Bits
  import opened Lz77
  import opened LzChains
  import opened LzHashes

  // ---------- searching for a match ----------

  /** Extends a match that already covers `skip` bytes, up to `last`. */
  method ExtendMatch(data: seq<byte>, pos: nat, distance: nat, skip: nat, last: nat) returns (length: nat)
    requires pos + skip <= last <= |data| && TrueMatch(data, pos, skip, distance)
    ensures TrueMatch(data, pos, length, distance) && pos + length <= last
    ensures pos + length == last || data[pos + length] != data[pos + length - distance]
  {
    var fore := pos + skip;
    while fore != last && data[fore - distance] == data[fore]
      invariant pos + skip <= fore <= last
      invariant TrueMatch(data, pos, fore - pos, distance)
      decreases last - fore
    {
      fore := fore + 1;
    }
    length := fore - pos;
  }

  /** Zeros at both places are equal bytes, so they can be skipped. */
  lemma ZerosMatch(data: seq<byte>, end: nat, pos: nat, n: nat, p: nat, z: nat)
    requires Zeros(data, end, pos, n) && Zeros(data, |data|, p, z) && p < pos
    ensures var skip := if z > n then n else z;
            pos + skip <= end && skip <= MAX_LENGTH && TrueMatch(data, pos, skip, pos - p)
  {
  }

  lemma NoMatchYet(data: seq<byte>, pos: nat, p: nat)
    requires p < pos <= |data|
    ensures TrueMatch(data, pos, 0, pos - p)
  {
  }

  /** A match the encoder may use at pos. */
  ghost predicate Usable(data: seq<byte>, pos: nat, end: nat, windowsize: nat, length: nat, offset: nat)
  {
    length > 0 ==>
      && TrueMatch(data, pos, length, offset)
      && offset < windowsize && length <= MAX_LENGTH && pos + length <= end
  }

  /** The distance to the position in a written slot, and the zeros there. */
  lemma Candidate(hash: Hash, data: seq<byte>, pos: nat, wpos: nat, hashpos: nat)
    requires hash.Valid(data, pos + 1) && hash.Written(hashpos, pos + 1) && wpos == Low(pos, hash.bits)
    ensures var p := hash.posOf[hashpos];
            && p <= pos && Zeros(data, |data|, p, hash.zeros[hashpos])
            && pos - p == (if hashpos <= wpos then wpos - hashpos else wpos - hashpos + hash.windowsize)
            && pos - p < hash.windowsize
  {
    assert hash.SlotOk(data, pos + 1, hashpos, hash.posOf[hashpos], hash.zeros[hashpos]);
    SlotDistance(hash.posOf[hashpos], pos, hash.bits);
  }

  /** No match at this distance is longer. */
  ghost predicate Longest(data: seq<byte>, pos: nat, end: nat, offset: nat, length: nat)
  {
    forall l: nat :: TrueMatch(data, pos, l, offset) && l <= MAX_LENGTH && pos + l <= end ==> l <= length
  }

  /** The longest match with the position in slot hashpos. */
  method TestCandidate(hash: Hash, data: seq<byte>, pos: nat, wpos: nat, hashpos: nat, offset: nat,
                       insize: nat, numzeros: nat) returns (length: nat)
    requires hash.Valid(data, pos + 1) && hash.Written(hashpos, pos + 1) && wpos == Low(pos, hash.bits)
    requires offset == (if hashpos <= wpos then wpos - hashpos else wpos - hashpos + hash.windowsize) > 0
    requires pos < insize <= |data| && Zeros(data, insize, pos, numzeros)
    ensures Usable(data, pos, insize, hash.windowsize, length, offset) && Longest(data, pos, insize, offset, length)
    ensures offset <= pos && TrueMatch(data, pos, length, offset) && length <= MAX_LENGTH && pos + length <= insize
  {
    hide Low, Pow2;
    Candidate(hash, data, pos, wpos, hashpos);
    ghost var p := hash.posOf[hashpos];
    var last := if insize < pos + MAX_LENGTH then insize else pos + MAX_LENGTH;
    var skip := 0;
    NoMatchYet(data, pos, p);
    if numzeros >= 3 {
      skip := hash.zeros[hashpos];
      if skip > numzeros { skip := numzeros; }
      ZerosMatch(data, insize, pos, numzeros, p, hash.zeros[hashpos]);
    }
    length := ExtendMatch(data, pos, offset, skip, last);
    StopsThere(data, pos, insize, offset, length, last);
  }

  /** A match that stops at a different byte, or at the limit, is the longest. */
  lemma StopsThere(data: seq<byte>, pos: nat, end: nat, offset: nat, length: nat, last: nat)
    requires pos + length <= last <= end <= |data| && last == (if end < pos + MAX_LENGTH then end else pos + MAX_LENGTH)
    requires TrueMatch(data, pos, length, offset)
    requires pos + length == last || data[pos + length] != data[pos + length - offset]
    ensures Longest(data, pos, end, offset, length)
  {
  }

  // ---------- the candidates ----------

  predicate InRange(c: State)
  {
    && |c.chain| == |c.chainz| == |c.val| == |c.zeros|
    && forall s :: 0 <= s < |c.chain| ==> c.chain[s] < |c.chain| && c.chainz[s] < |c.chain|
  }

  /** The longest match at distance o, from length l on, up to `last`. */
  function MatchFrom(data: seq<byte>, pos: nat, o: nat, l: nat, last: nat): (m: nat)
    requires 0 < o <= pos && pos + l <= last <= |data|
    ensures l <= m && pos + m <= last
    decreases last - l
  {
    if pos + l < last && data[pos + l] == data[pos + l - o] then MatchFrom(data, pos, o, l + 1, last) else l
  }

  function Last(pos: nat, end: nat): nat
  {
    if end < pos + MAX_LENGTH then end else pos + MAX_LENGTH
  }

  /** A search: where it looks, and for what. */
  datatype Search = Search(data: seq<byte>, pos: nat, end: nat, wpos: nat, numzeros: nat, hashval: nat, nicematch: nat)

  predicate SearchOk(q: Search, c: State)
  {
    q.pos < q.end <= |q.data| && q.wpos < |c.chain| && InRange(c)
  }

  function Distance(q: Search, c: State, slot: nat): nat
    requires q.wpos < |c.chain| && slot < |c.chain|
  {
    if slot <= q.wpos then q.wpos - slot else q.wpos - slot + |c.chain|
  }

  /** The length of the longest match with a slot; 0 for a slot that holds no earlier position. */
  function LengthAt(q: Search, c: State, slot: nat): nat
    requires SearchOk(q, c) && slot < |c.chain|
  {
    var o := Distance(q, c, slot);
    if 0 < o <= q.pos then MatchFrom(q.data, q.pos, o, 0, Last(q.pos, q.end)) else 0
  }

  /** The slot behind this one, if the walk goes on: along the chain of equal zero counts once the best
      match is longer than the zeros, else along the chain of equal hash values. */
  function NextSlot(q: Search, c: State, slot: nat, best: nat): (next: nat)
    requires SearchOk(q, c) && slot < |c.chain|
    ensures next <= |c.chain|
  {
    if slot == c.chain[slot] then |c.chain|
    else if q.numzeros >= 3 && best > q.numzeros then
      var next := c.chainz[slot]; if c.zeros[next] != q.numzeros then |c.chain| else next
    else
      var next := c.chain[slot]; if c.val[next] != q.hashval then |c.chain| else next
  }

  /** The distances that are compared, from a slot on, in at most `steps` steps: it stops where distances
      get smaller again, and at a match that is long enough. */
  function Visits(q: Search, c: State, slot: nat, steps: nat, prev: nat, best: nat): seq<nat>
    requires SearchOk(q, c) && slot < |c.chain|
    decreases steps
  {
    var o := Distance(q, c, slot);
    if steps == 0 || o < prev then []
    else
      var l := LengthAt(q, c, slot);
      var here := if o > 0 then [o] else [];
      if l > best && l >= q.nicematch then here
      else
        var more := if l > best then l else best;
        var next := NextSlot(q, c, slot, more);
        if next == |c.chain| then here else here + Visits(q, c, next, steps - 1, o, more)
  }

  // ---------- nothing near is missed ----------

  /** The length of the longest match at distance o. */
  function LenAt(q: Search, o: nat): nat
    requires q.pos < q.end <= |q.data| && 0 < o <= q.pos
  {
    MatchFrom(q.data, q.pos, o, 0, Last(q.pos, q.end))
  }

  /** A slot that holds position p, which is not later than the position of the search. */
  ghost predicate Holding(q: Search, c: State, s: nat, p: nat)
  {
    s < |c.posOf| && s < q.pos + 1 && c.posOf[s] == p
  }

  /** What holds when a search starts: the chains are linked and exact, and slots tell distances. */
  ghost predicate Searching(q: Search, c: State, inpos: nat)
  {
    && SearchOk(q, c) && Linking(c, q.data, q.end, inpos, q.pos + 1, false) && inpos <= q.pos
    && q.numzeros == ZerosAt(q.data, q.end, q.pos) && q.hashval == HashAt(q.data, q.end, q.pos)
    && |c.posOf| == |c.chain| && Holding(q, c, q.wpos, q.pos)
    && forall s: nat :: s < |c.posOf| && s < q.pos + 1 ==> c.posOf[s] <= q.pos && Distance(q, c, s) == q.pos - c.posOf[s]
  }

  /** Equal bytes have equal hashes. */
  lemma SameHash(data: seq<byte>, size: nat, pos: nat, o: nat)
    requires 0 < o <= pos && pos + 2 < size <= |data|
    requires data[pos] == data[pos - o] && data[pos + 1] == data[pos + 1 - o] && data[pos + 2] == data[pos + 2 - o]
    ensures HashAt(data, size, pos - o) == HashAt(data, size, pos)
  {
  }

  /** A match longer than the zeros at a position starts with as many. */
  lemma SameZeros(data: seq<byte>, size: nat, pos: nat, o: nat, l: nat)
    requires size <= |data| && pos + l <= size && TrueMatch(data, pos, l, o) && l <= MAX_LENGTH
    requires 3 <= ZerosAt(data, size, pos) < l
    ensures HashAt(data, size, pos) == 0 && ZerosAt(data, size, pos - o) == ZerosAt(data, size, pos)
  {
    hide HashAt;
    var z := ZerosAt(data, size, pos);
    SameHash(data, size, pos, o);
    ZeroRunStops(data, size, pos, MAX_LENGTH);
    assert data[pos + z] != 0 && data[pos + z] == data[pos + z - o];
    forall i | pos - o <= i < pos - o + z
      ensures data[i] == 0
    {
      assert data[i + o] == 0;
    }
    ZeroRunIs(data, size, pos - o, z);
  }

  lemma LenIsTrue(q: Search, o: nat)
    requires q.pos < q.end <= |q.data| && 0 < o <= q.pos
    ensures LenAt(q, o) <= MAX_LENGTH && q.pos + LenAt(q, o) <= q.end && TrueMatch(q.data, q.pos, LenAt(q, o), o)
  {
    MatchFromTrue(q.data, q.pos, o, 0, Last(q.pos, q.end));
  }

  /** What a slot and an earlier position with the same key have between them. */
  lemma FollowLink(c: State, key: seq<int>, link: seq<nat>, n: nat, s: nat, t: nat)
    requires Links(key, link, c.posOf, |c.posOf|, n) && s < |c.posOf| && s < n && t < |c.posOf| && t < n
    requires key[s] == key[t] && c.posOf[t] < c.posOf[s]
    ensures link[s] != s && link[s] < |c.posOf| && link[s] < n && key[link[s]] == key[s]
    ensures c.posOf[t] <= c.posOf[link[s]] < c.posOf[s]
  {
    assert LinkOk(key, link, c.posOf, |c.posOf|, n, s, t);
  }

  lemma SearchLinks(q: Search, c: State, inpos: nat)
    requires Searching(q, c, inpos)
    ensures Links(c.val, c.chain, c.posOf, |c.posOf|, q.pos + 1) && Links(c.zeros, c.chainz, c.posOf, |c.posOf|, q.pos + 1)
    ensures SearchOk(q, c) && |c.posOf| == |c.chain| == |c.chainz| == |c.val| == |c.zeros| && inpos <= q.pos
    ensures q.pos < q.end <= |q.data| && Holding(q, c, q.wpos, q.pos)
    ensures q.numzeros == ZerosAt(q.data, q.end, q.pos) && q.hashval == HashAt(q.data, q.end, q.pos)
  {
    hide Links, Heads, Slots, HashAt, ZerosAt;
  }

  lemma SlotTells(q: Search, c: State, inpos: nat, s: nat)
    requires Searching(q, c, inpos) && s < |c.posOf| && s < q.pos + 1
    ensures q.end <= |q.data| && |c.posOf| == |c.val| == |c.zeros| == |c.chain| && q.wpos < |c.chain|
    ensures c.posOf[s] <= q.pos && Distance(q, c, s) == q.pos - c.posOf[s]
    ensures c.posOf[s] >= inpos ==>
              c.val[s] == HashAt(q.data, q.end, c.posOf[s]) && c.zeros[s] == ZerosAt(q.data, q.end, c.posOf[s])
    ensures c.posOf[s] >= inpos && c.zeros[s] > 0 ==> c.val[s] == 0
  {
    hide Links, Heads, Slots, HashAt;
  }

  /** The zeros at a slot whose match is longer than the zeros of the search. */
  lemma LongerThanZeros(q: Search, c: State, inpos: nat, s: nat)
    requires Searching(q, c, inpos) && s < |c.posOf| && s < q.pos + 1 && inpos <= c.posOf[s] < q.pos < q.end <= |q.data|
    requires q.numzeros >= 3 && LenAt(q, q.pos - c.posOf[s]) > q.numzeros
    ensures |c.posOf| == |c.zeros| && c.zeros[s] == q.numzeros && q.hashval == 0
  {
    hide Links, Heads, Slots, HashAt, ZerosAt, LenAt;
    SlotTells(q, c, inpos, s);
    SearchLinks(q, c, inpos);
    var o := q.pos - c.posOf[s];
    LenIsTrue(q, o);
    SameZeros(q.data, q.end, q.pos, o, LenAt(q, o));
  }

  ghost predicate Reached(q: Search, visits: seq<nat>, m: nat)
    requires q.pos < q.end <= |q.data|
  {
    exists i :: 0 <= i < |visits| && 0 < visits[i] <= q.pos && LenAt(q, visits[i]) >= m
  }

  function Enough(q: Search, l: nat): nat
  {
    if l < q.nicematch then l else q.nicematch
  }

  /** The walk is at `slot`, not yet past `target`, and on the right chain. */
  ghost predicate OnTheWay(q: Search, c: State, inpos: nat, slot: nat, target: nat, best: nat)
    requires |c.val| == |c.posOf| == |c.zeros|
  {
    && slot < |c.posOf| && slot < q.pos + 1 && target < |c.posOf| && target < q.pos + 1
    && inpos <= c.posOf[target] <= c.posOf[slot] < q.pos
    && c.val[slot] == q.hashval && c.val[target] == q.hashval
    && (q.numzeros >= 3 && best > q.numzeros ==> c.zeros[slot] == q.numzeros)
  }

  /** One step along the way. */
  lemma StepsOn(q: Search, c: State, inpos: nat, slot: nat, target: nat, best: nat, more: nat)
    requires Searching(q, c, inpos) && |c.val| == |c.posOf| == |c.zeros| == |c.chain| && q.pos < q.end <= |q.data|
    requires OnTheWay(q, c, inpos, slot, target, best) && slot != target && c.posOf[target] < c.posOf[slot]
    requires var l := LenAt(q, q.pos - c.posOf[slot]); more == if l > best then l else best
    requires more < LenAt(q, q.pos - c.posOf[target])
    ensures SearchOk(q, c)
    ensures var next := NextSlot(q, c, slot, more);
            && next < |c.chain| && OnTheWay(q, c, inpos, next, target, more) && c.posOf[next] < c.posOf[slot]
  {
    hide Searching, Links, HashAt, ZerosAt, LenAt, SearchOk, Distance;
    SearchLinks(q, c, inpos);
    FollowLink(c, c.val, c.chain, q.pos + 1, slot, target);
    if q.numzeros >= 3 && more > q.numzeros {
      LongerThanZeros(q, c, inpos, target);
      if best <= q.numzeros {
        LongerThanZeros(q, c, inpos, slot);
      }
      FollowLink(c, c.zeros, c.chainz, q.pos + 1, slot, target);
      SlotTells(q, c, inpos, c.chainz[slot]);
    }
  }

  /** A walk of enough steps reaches the target, or something as long before it, or what is long enough. */
  lemma {:induction false} WalkFinds(q: Search, c: State, inpos: nat, slot: nat, steps: nat, prev: nat, best: nat, target: nat)
    requires Searching(q, c, inpos) && |c.val| == |c.posOf| == |c.zeros| == |c.chain| && q.pos < q.end <= |q.data|
    requires OnTheWay(q, c, inpos, slot, target, best)
    requires steps > c.posOf[slot] - c.posOf[target] && prev <= q.pos - c.posOf[slot]
    ensures SearchOk(q, c)
    ensures var m := Enough(q, LenAt(q, q.pos - c.posOf[target]));
            best >= m || Reached(q, Visits(q, c, slot, steps, prev, best), m)
    decreases steps
  {
    hide Searching, HashAt, ZerosAt, LenAt, Distance, Visits, NextSlot, InRange;
    SearchLinks(q, c, inpos);
    SlotTells(q, c, inpos, slot);
    var o := q.pos - c.posOf[slot];
    var want := LenAt(q, q.pos - c.posOf[target]);
    var l := LenAt(q, o);
    LengthOfSlot(q, c, slot);
    VisitsOne(q, c, slot, steps, prev, best, []);
    var more := if l > best then l else best;
    var visits := Visits(q, c, slot, steps, prev, best);
    assert [] + visits == visits && [] + [o] == [o];
    if l > best && l >= q.nicematch {
      assert visits[0] == o;
    } else if slot == target || c.posOf[slot] == c.posOf[target] || more >= want {
      VisitsFirst(q, c, slot, steps, prev, best);
    } else {
      StepsOn(q, c, inpos, slot, target, best, more);
      var next := NextSlot(q, c, slot, more);
      SlotTells(q, c, inpos, next);
      WalkFinds(q, c, inpos, next, steps - 1, o, more, target);
      VisitsFirst(q, c, slot, steps, prev, best);
      ReachedLater(q, o, Visits(q, c, next, steps - 1, o, more), Enough(q, want));
    }
  }

  lemma ReachedLater(q: Search, o: nat, rest: seq<nat>, m: nat)
    requires q.pos < q.end <= |q.data|
    ensures Reached(q, rest, m) ==> Reached(q, [o] + rest, m)
  {
    hide LenAt;
    if Reached(q, rest, m) {
      var i :| 0 <= i < |rest| && 0 < rest[i] <= q.pos && LenAt(q, rest[i]) >= m;
      assert ([o] + rest)[i + 1] == rest[i];
    }
  }

  lemma LengthOfSlot(q: Search, c: State, slot: nat)
    requires SearchOk(q, c) && slot < |c.chain| && 0 < Distance(q, c, slot) <= q.pos
    ensures LengthAt(q, c, slot) == LenAt(q, Distance(q, c, slot))
  {
  }

  /** The first distance of a walk that is not stopped at once. */
  lemma VisitsFirst(q: Search, c: State, slot: nat, steps: nat, prev: nat, best: nat)
    requires SearchOk(q, c) && slot < |c.chain| && steps > 0 && Distance(q, c, slot) >= prev && Distance(q, c, slot) > 0
    ensures var visits := Visits(q, c, slot, steps, prev, best); |visits| > 0 && visits[0] == Distance(q, c, slot)
  {
    hide LengthAt, NextSlot, InRange, Distance;
  }

  lemma {:induction false} MatchFromTrue(data: seq<byte>, pos: nat, o: nat, l: nat, last: nat)
    requires 0 < o <= pos && pos + l <= last <= |data| && TrueMatch(data, pos, l, o)
    ensures var m := MatchFrom(data, pos, o, l, last);
            TrueMatch(data, pos, m, o) && (pos + m == last || data[pos + m] != data[pos + m - o])
    decreases last - l
  {
    if pos + l < last && data[pos + l] == data[pos + l - o] {
      MatchFromTrue(data, pos, o, l + 1, last);
    }
  }

  /** What TestCandidate finds is that length. */
  lemma LengthIs(q: Search, c: State, slot: nat, length: nat)
    requires SearchOk(q, c) && slot < |c.chain|
    requires var o := Distance(q, c, slot);
             && 0 < o <= q.pos && Longest(q.data, q.pos, q.end, o, length)
             && (length > 0 ==> TrueMatch(q.data, q.pos, length, o))
             && length <= MAX_LENGTH && q.pos + length <= q.end
    ensures length == LengthAt(q, c, slot)
  {
    var o, last := Distance(q, c, slot), Last(q.pos, q.end);
    MatchFromTrue(q.data, q.pos, o, 0, last);
    var m := MatchFrom(q.data, q.pos, o, 0, last);
    StopsThere(q.data, q.pos, q.end, o, m, last);
  }

  /** A usable match is as long as every match with a position from inpos on that is less than a window away, and
      not more than a chain's length; or it is long enough. */
  ghost predicate Complete(data: seq<byte>, inpos: nat, end: nat, pos: nat, windowsize: nat, maxchain: nat, nicematch: nat,
                           length: nat)
  {
    forall o: nat, l: nat ::
      TrueMatch(data, pos, l, o) && 3 <= l <= MAX_LENGTH && pos + l <= end && o < windowsize && o <= maxchain && inpos + o <= pos
      ==> length >= l || length >= nicematch
  }

  lemma StartSearching(hash: Hash, data: seq<byte>, inpos: nat, q: Search)
    requires hash.Valid(data, q.pos + 1) && q.data == data && q.wpos == Low(q.pos, hash.bits) && q.pos < q.end <= |data|
    requires Linking(hash.Holds(), data, q.end, inpos, q.pos + 1, false) && inpos <= q.pos
    requires q.numzeros == ZerosAt(data, q.end, q.pos) && q.hashval == HashAt(data, q.end, q.pos)
    ensures Searching(q, hash.Holds(), inpos)
  {
    hide Low, Pow2, HashAt, ZerosAt, Zeros, Linking;
    var c := hash.Holds();
    ValidInRange(hash, data, q.pos + 1);
    hash.SlotOfPosition(data, q.pos, q.pos + 1);
    forall s: nat | s < |c.posOf| && s < q.pos + 1
      ensures c.posOf[s] <= q.pos && Distance(q, c, s) == q.pos - c.posOf[s]
    {
      Candidate(hash, data, q.pos, q.wpos, s);
    }
  }

  /** The walk that starts at a position finds all that can be found. */
  lemma FindsAll(hash: Hash, data: seq<byte>, inpos: nat, q: Search, maxchain: nat, length: nat, offset: nat, seen: seq<nat>)
    requires hash.Valid(data, q.pos + 1) && q.data == data && Searching(q, hash.Holds(), inpos)
    requires SearchOk(q, hash.Holds()) && seen == Visits(q, hash.Holds(), hash.chain[q.wpos], maxchain, 0, 0)
    requires BestOf(data, q.pos, q.end, length, offset, seen)
    ensures Complete(data, inpos, q.end, q.pos, hash.windowsize, maxchain, q.nicematch, length)
  {
    hide Low, Pow2, HashAt, ZerosAt, Searching, Visits, LenAt, Reached, OnTheWay, BestOf, TrueMatch, SearchOk, Distance, Zeros;
    var c := hash.Holds();
    forall o: nat, l: nat | TrueMatch(data, q.pos, l, o) && 3 <= l <= MAX_LENGTH && q.pos + l <= q.end && o < hash.windowsize
                            && o <= maxchain && inpos + o <= q.pos
      ensures length >= l || length >= q.nicematch
    {
      MatchTarget(hash, data, inpos, q, o, l);
      var t := Low(q.pos - o, hash.bits);
      SearchLinks(q, c, inpos);
      WalkFinds(q, c, inpos, c.chain[q.wpos], maxchain, 0, 0, t);
      BestReached(q, length, offset, seen, Enough(q, LenAt(q, o)));
    }
  }

  lemma BestReached(q: Search, length: nat, offset: nat, seen: seq<nat>, m: nat)
    requires q.pos < q.end <= |q.data| && BestOf(q.data, q.pos, q.end, length, offset, seen)
    ensures Reached(q, seen, m) ==> length >= m
  {
    hide LenAt, Longest;
    if Reached(q, seen, m) {
      var i :| 0 <= i < |seen| && 0 < seen[i] <= q.pos && LenAt(q, seen[i]) >= m;
      assert Beaten(q.data, q.pos, q.end, seen[i], length, offset);
      LongestIsLen(q, seen[i]);
    }
  }

  lemma LongestIsLen(q: Search, o: nat)
    requires q.pos < q.end <= |q.data| && 0 < o <= q.pos
    ensures forall l: nat :: Longest(q.data, q.pos, q.end, o, l) ==> LenAt(q, o) <= l
    ensures Longest(q.data, q.pos, q.end, o, LenAt(q, o))
  {
    var last := Last(q.pos, q.end);
    MatchFromTrue(q.data, q.pos, o, 0, last);
    StopsThere(q.data, q.pos, q.end, o, LenAt(q, o), last);
  }

  /** The slot of a match is on the way of the walk. */
  lemma MatchTarget(hash: Hash, data: seq<byte>, inpos: nat, q: Search, o: nat, l: nat)
    requires hash.Valid(data, q.pos + 1) && q.data == data && Searching(q, hash.Holds(), inpos)
    requires TrueMatch(data, q.pos, l, o) && 3 <= l <= MAX_LENGTH && q.pos + l <= q.end && o < hash.windowsize
    requires inpos + o <= q.pos
    ensures q.wpos < |hash.Holds().chain| && 0 < o <= q.pos
    ensures var c, t := hash.Holds(), Low(q.pos - o, hash.bits);
            && |c.val| == |c.posOf| == |c.zeros| && OnTheWay(q, c, inpos, c.chain[q.wpos], t, 0) && c.posOf[t] == q.pos - o
            && l <= LenAt(q, o) && c.posOf[c.chain[q.wpos]] < q.pos
  {
    hide Low, Pow2, HashAt, ZerosAt, Searching, LenAt, SearchOk, Distance, Zeros, Longest, Links;
    var c, t := hash.Holds(), Low(q.pos - o, hash.bits);
    SearchLinks(q, c, inpos);
    hash.SlotOfPosition(data, q.pos - o, q.pos + 1);
    SlotTells(q, c, inpos, t);
    SlotTells(q, c, inpos, q.wpos);
    SameHash(data, q.end, q.pos, o);
    FollowLink(c, c.val, c.chain, q.pos + 1, q.wpos, t);
    LongestIsLen(q, o);
    LongestCovers(q, o, l);
  }

  lemma LongestCovers(q: Search, o: nat, l: nat)
    requires q.pos < q.end <= |q.data| && 0 < o <= q.pos && Longest(q.data, q.pos, q.end, o, LenAt(q, o))
    requires TrueMatch(q.data, q.pos, l, o) && l <= MAX_LENGTH && q.pos + l <= q.end
    ensures l <= LenAt(q, o)
  {
    hide LenAt;
  }

  lemma ValidInRange(hash: Hash, data: seq<byte>, n: nat)
    requires hash.Valid(data, n)
    ensures InRange(hash.Holds()) && |hash.Holds().chain| == hash.windowsize
  {
  }

  /** The longest match with any of the candidates that the chains lead to, and of those of equal length
      the nearest. `seen` holds the distances of the candidates. */
  method FindMatch(hash: Hash, data: seq<byte>, ghost inpos: nat, pos: nat, wpos: nat, insize: nat, numzeros: nat, hashval: nat,
                   maxchainlength: nat, nicematch: nat) returns (length: nat, offset: nat, ghost seen: seq<nat>)
    requires hash.Valid(data, pos + 1) && wpos == Low(pos, hash.bits) && wpos < hash.windowsize && wpos <= pos
    requires inpos <= pos < insize <= |data| && Linking(hash.Holds(), data, insize, inpos, pos + 1, false)
    requires numzeros == ZerosAt(data, insize, pos) && hashval == HashAt(data, insize, pos)
    ensures Usable(data, pos, insize, hash.windowsize, length, offset)
    ensures BestOf(data, pos, insize, length, offset, seen)
    ensures var q, c := Search(data, pos, insize, wpos, numzeros, hashval, nicematch), hash.Holds();
            SearchOk(q, c) && seen == Visits(q, c, c.chain[wpos], maxchainlength, 0, 0)
    ensures Complete(data, inpos, insize, pos, hash.windowsize, maxchainlength, nicematch, length)
  {
    hide Low, Pow2, Longest, MatchFrom, InRange, Visits, BestOf, LengthAt, Linking, HashAt, ZerosAt, Complete, Searching;
    ZerosAtAreZeros(data, insize, pos);
    length, offset, seen := 0, 0, [];
    ValidInRange(hash, data, pos + 1);
    NothingSeen(data, pos, insize);
    ghost var q, c := Search(data, pos, insize, wpos, numzeros, hashval, nicematch), hash.Holds();
    var hashpos := hash.chain[wpos];
    StartSearching(hash, data, inpos, q);
    ghost var all := Visits(q, c, hashpos, maxchainlength, 0, 0);
    var prevOffset, chainlength := 0, 0;
    while true
      invariant hash.Written(hashpos, pos + 1) && chainlength <= maxchainlength
      invariant Usable(data, pos, insize, hash.windowsize, length, offset)
      invariant BestOf(data, pos, insize, length, offset, seen)
      invariant forall i :: 0 <= i < |seen| ==> seen[i] <= prevOffset
      invariant all == seen + Visits(q, c, hashpos, maxchainlength - chainlength, prevOffset, length)
      decreases maxchainlength - chainlength
    {
      VisitsOne(q, c, hashpos, maxchainlength - chainlength, prevOffset, length, seen);
      if chainlength >= maxchainlength { break; }
      chainlength := chainlength + 1;
      var currentOffset := if hashpos <= wpos then wpos - hashpos else wpos - hashpos + hash.windowsize;
      if currentOffset < prevOffset { break; }
      prevOffset := currentOffset;
      if currentOffset > 0 {
        var currentLength := TestCandidate(hash, data, pos, wpos, hashpos, currentOffset, insize, numzeros);
        LengthIs(q, c, hashpos, currentLength);
        BestOfMore(data, pos, insize, length, offset, seen, currentLength, currentOffset);
        seen := seen + [currentOffset];
        if currentLength > length {
          length := currentLength;
          offset := currentOffset;
          if currentLength >= nicematch { break; }
        }
      } else {
        NoLength(q, c, hashpos);
      }
      if hashpos == hash.chain[hashpos] { break; }
      if numzeros >= 3 && length > numzeros {
        hashpos := hash.chainz[hashpos];
        if hash.zeros[hashpos] != numzeros { break; }
      } else {
        hashpos := hash.chain[hashpos];
        if hash.val[hashpos] != hashval { break; }
      }
    }
    FindsAll(hash, data, inpos, q, maxchainlength, length, offset, seen);
  }

  /** One step of the walk. */
  lemma VisitsOne(q: Search, c: State, slot: nat, steps: nat, prev: nat, best: nat, seen: seq<nat>)
    requires SearchOk(q, c) && slot < |c.chain|
    ensures var o := Distance(q, c, slot);
            var v := seen + Visits(q, c, slot, steps, prev, best);
            if steps == 0 || o < prev then v == seen
            else
              var l := LengthAt(q, c, slot);
              var here := if o > 0 then seen + [o] else seen;
              var more := if l > best then l else best;
              var next := NextSlot(q, c, slot, more);
              if (l > best && l >= q.nicematch) || next == |c.chain| then v == here
              else v == here + Visits(q, c, next, steps - 1, o, more)
  {
    hide LengthAt, NextSlot, InRange;
  }

  /** The slot of the position itself is no candidate. */
  lemma NoLength(q: Search, c: State, slot: nat)
    requires SearchOk(q, c) && slot < |c.chain| && Distance(q, c, slot) == 0
    ensures LengthAt(q, c, slot) == 0
  {
  }

  lemma NothingSeen(data: seq<byte>, pos: nat, end: nat)
    ensures BestOf(data, pos, end, 0, 0, [])
  {
  }

  /** The longest match at distance o is not longer, and shorter if o is nearer. */
  ghost predicate Beaten(data: seq<byte>, pos: nat, end: nat, o: nat, length: nat, offset: nat)
  {
    exists l: nat :: Longest(data, pos, end, o, l) && l <= length && (o < offset ==> l < length)
  }

  ghost predicate BestOf(data: seq<byte>, pos: nat, end: nat, length: nat, offset: nat, seen: seq<nat>)
  {
    && (if length > 0 then offset in seen else offset == 0)
    && forall i :: 0 <= i < |seen| ==> Beaten(data, pos, end, seen[i], length, offset)
  }

  lemma BestOfMore(data: seq<byte>, pos: nat, end: nat, length: nat, offset: nat, seen: seq<nat>, l: nat, o: nat)
    requires BestOf(data, pos, end, length, offset, seen) && Longest(data, pos, end, o, l)
    requires forall i :: 0 <= i < |seen| ==> seen[i] <= o
    ensures if l > length then BestOf(data, pos, end, l, o, seen + [o]) else BestOf(data, pos, end, length, offset, seen + [o])
  {
    hide Longest;
    var more := seen + [o];
    var x, y := if l > length then l else length, if l > length then o else offset;
    assert more[|seen|] == o;
    forall i | 0 <= i < |more|
      ensures Beaten(data, pos, end, more[i], x, y)
    {
      if i < |seen| {
        assert more[i] == seen[i] && Beaten(data, pos, end, seen[i], length, offset);
      }
    }
  }
}
