/**
 The LZ77 encoder: for each position the hash chains are searched for the longest match, with lazy
 matching, a chain of equal zero counts, and a skip over runs of zeros.

 Whatever the chains hold, every match that is written is a true match inside the window, so
 expanding the tokens gives the input back. The loop terminates although the lazy step moves the
 position back.
 */
module LzEncode {
  import opened Bits
  import opened Lz77
  import opened LzHashes
  import opened LzSearches

  // ---------- inserting positions ----------

  /** The zero count kept from the previous position, or from an earlier visit of this one. */
  ghost predicate CarriedZeros(data: seq<byte>, end: nat, pos: nat, n: nat)
    requires end <= |data|
  {
    n == 0 || n == ZerosAt(data, end, pos) || (pos > 0 && n == ZerosAt(data, end, pos - 1))
  }

  /** The count for a position whose hash is zero, from the one that was carried there. */
  lemma ZerosCarriedOn(data: seq<byte>, end: nat, pos: nat, n: nat)
    requires pos < end <= |data| && CarriedZeros(data, end, pos, n) && n > 0 && HashAt(data, end, pos) == 0
    ensures pos + n <= |data| + 1
    ensures ZerosAt(data, end, pos) == if pos + n > end || data[pos + n - 1] != 0 then n - 1 else n
  {
    hide HashAt, ZerosAt, ZeroRun, Zeros;
    ZerosAtIs(data, end, pos);
    if n == ZerosAt(data, end, pos) {
      RunEnds(data, end, pos);
    } else {
      assert pos > 0 && n == ZerosAt(data, end, pos - 1);
      ZerosAtIs(data, end, pos - 1);
      NextRun(data, end, pos, n);
    }
  }

  /** A run that is not empty ends with a zero. */
  lemma RunEnds(data: seq<byte>, end: nat, pos: nat)
    requires pos < end <= |data|
    ensures var n := ZeroRun(data, end, pos, MAX_LENGTH); pos + n <= end && (n > 0 ==> data[pos + n - 1] == 0)
  {
    ZeroRunStops(data, end, pos, MAX_LENGTH);
  }

  /** The run at the next position is one shorter, unless it was as long as a match can be. */
  lemma NextRun(data: seq<byte>, end: nat, pos: nat, n: nat)
    requires 0 < pos < end <= |data| && n == ZeroRun(data, end, pos - 1, MAX_LENGTH) > 0
    ensures pos + n <= |data| + 1
    ensures ZeroRun(data, end, pos, MAX_LENGTH) == if pos + n > end || data[pos + n - 1] != 0 then n - 1 else n
  {
    hide ZeroRun;
    ZeroRunStops(data, end, pos - 1, MAX_LENGTH);
    ZeroRunIs(data, end, pos, if pos + n > end || data[pos + n - 1] != 0 then n - 1 else n);
  }

  /** Hashes position pos, updates the zero count and inserts the position. */
  method InsertPosition(hash: Hash, data: seq<byte>, ghost inpos: nat, insize: nat, pos: nat, numzeros: nat, ghost n: nat)
    returns (newzeros: nat, hashval: nat, wpos: nat)
    requires hash.Valid(data, n) && (pos == n || pos + 1 == n)
    requires inpos <= pos < insize <= |data| && CarriedZeros(data, insize, pos, numzeros)
    requires Linking(hash.Holds(), data, insize, inpos, n, pos + 1 == n)
    modifies hash, hash.head, hash.chain, hash.val, hash.headz, hash.chainz, hash.zeros
    ensures hash.Valid(data, pos + 1) && newzeros == ZerosAt(data, insize, pos)
    ensures Linking(hash.Holds(), data, insize, inpos, pos + 1, false)
    ensures hashval == HashAt(data, insize, pos) < HASH_NUM_VALUES
    ensures wpos == Low(pos, hash.bits) && wpos < hash.windowsize && wpos <= pos
  {
    hide Low, Pow2, HashAt, ZerosAt, Linking, Zeros, CarriedZeros, Inserted, SlotFor;
    ghost var before := hash.Holds();
    hash.SlotForPosition(data, pos, n);
    LowBound(pos, hash.bits);
    wpos := WindowSlot(pos, hash.windowsize, hash.bits);
    hash.LowSlot(pos, hash.bits);
    hashval := GetHash(data, insize, pos);
    newzeros := numzeros;
    if hashval == 0 {
      if numzeros == 0 {
        newzeros := CountZeros(data, insize, pos);
        ZeroRunIs(data, insize, pos, newzeros);
        ZerosAtIs(data, insize, pos);
      } else {
        ZerosCarriedOn(data, insize, pos, numzeros);
        if pos + numzeros > insize || data[pos + numzeros - 1] != 0 {
          newzeros := numzeros - 1;
        }
      }
    } else {
      newzeros := 0;
      ZerosAtIs(data, insize, pos);
    }
    ZerosAtAreZeros(data, insize, pos);
    hash.Update(wpos, hashval, newzeros, data, pos, n);
    InsertKeeps(before, data, insize, inpos, n, wpos, pos);
  }

  lemma ZerosAtIs(data: seq<byte>, size: nat, pos: nat)
    requires size <= |data|
    ensures HashAt(data, size, pos) == 0 ==> ZerosAt(data, size, pos) == ZeroRun(data, size, pos, MAX_LENGTH)
    ensures HashAt(data, size, pos) != 0 ==> ZerosAt(data, size, pos) == 0
  {
  }

  /** pos & (windowsize - 1) */
  method WindowSlot(pos: nat, windowsize: nat, ghost k: nat) returns (wpos: nat)
    requires windowsize == Pow2(k)
    ensures wpos == Low(pos, k)
  {
    MaskIsLow(pos, k);
    wpos := And(pos, windowsize - 1);
  }

  /** a & b */
  function And(a: nat, b: nat): nat
  {
    if a == 0 || b == 0 then 0 else (if a % 2 == 1 && b % 2 == 1 then 1 else 0) + 2 * And(a / 2, b / 2)
  }

  lemma {:induction false} MaskIsLow(x: nat, k: nat)
    ensures And(x, Pow2(k) - 1) == Low(x, k)
  {
    if k > 0 {
      var m := Pow2(k - 1);
      assert (2 * m - 1) / 2 == m - 1 && (2 * m - 1) % 2 == 1;
      MaskIsLow(x / 2, k - 1);
      if x == 0 {
        ShlZero(k);
      }
    }
  }

  /** Inserts the positions that a match covers after its first one. */
  method InsertRun(hash: Hash, data: seq<byte>, ghost inpos: nat, insize: nat, pos: nat, length: nat, numzeros: nat, ghost n: nat)
    returns (newzeros: nat)
    requires hash.Valid(data, n) && (n == pos + 1 || n == pos + 2)
    requires length >= 3 && pos + length <= insize <= |data| && inpos <= pos
    requires numzeros == ZerosAt(data, insize, n - 1) && Linking(hash.Holds(), data, insize, inpos, n, n == pos + 2)
    modifies hash, hash.head, hash.chain, hash.val, hash.headz, hash.chainz, hash.zeros
    ensures hash.Valid(data, pos + length) && newzeros == ZerosAt(data, insize, pos + length - 1)
    ensures Linking(hash.Holds(), data, insize, inpos, pos + length, false)
  {
    hide Low, Pow2, HashAt, ZerosAt, Linking;
    newzeros := numzeros;
    var i := 1;
    ghost var m := n;
    while i < length
      invariant 1 <= i <= length
      invariant m == if i == 1 then n else pos + i
      invariant hash.Valid(data, m) && newzeros == ZerosAt(data, insize, m - 1)
      invariant Linking(hash.Holds(), data, insize, inpos, m, m == pos + i + 1)
    {
      var hashval, wpos;
      newzeros, hashval, wpos := InsertPosition(hash, data, inpos, insize, pos + i, newzeros, m);
      i := i + 1;
      m := pos + i;
    }
  }

  // ---------- the output ----------

  /** The codes written for a block that starts at inpos give the input up to e. */
  ghost predicate Encoded(codes: seq<nat>, tokens: seq<Token>, data: seq<byte>, inpos: nat, e: nat)
  {
    && inpos <= e <= |data|
    && AllFit(tokens, inpos) && Coded(tokens)
    && Expand(tokens, data[..inpos]) == data[..e]
    && codes == AllCodes(tokens)
  }

  lemma NothingEncoded(data: seq<byte>, inpos: nat)
    requires inpos <= |data|
    ensures Encoded([], [], data, inpos, inpos)
  {
  }

  /** Adding one fitting token. */
  lemma EncodedSnoc(codes: seq<nat>, tokens: seq<Token>, data: seq<byte>, inpos: nat, e: nat, t: Token, e': nat)
    requires Encoded(codes, tokens, data, inpos, e)
    requires Fits(t, e) && e' <= |data| && ExpandOne(t, data[..e]) == data[..e'] && e <= e'
    ensures Coded([t]) && Encoded(codes + Codes(t), tokens + [t], data, inpos, e')
  {
    hide Expand, AllFit, AllCodes, Codes;
    ExpandSize(tokens, data, inpos, e);
    ExpandSnoc(tokens, t, data[..inpos]);
    AllCodesSnoc(tokens, t);
  }

  lemma ExpandSize(tokens: seq<Token>, data: seq<byte>, inpos: nat, e: nat)
    requires inpos <= e <= |data| && AllFit(tokens, inpos) && Expand(tokens, data[..inpos]) == data[..e]
    ensures inpos + TotalSize(tokens) == e
  {
  }

  lemma EncodedLiteral(codes: seq<nat>, tokens: seq<Token>, data: seq<byte>, inpos: nat, e: nat)
    requires Encoded(codes, tokens, data, inpos, e) && e < |data|
    ensures Encoded(codes + [data[e]], tokens + [Literal(data[e])], data, inpos, e + 1)
  {
    hide Encoded;
    assert ExpandOne(Literal(data[e]), data[..e]) == data[..e + 1];
    EncodedSnoc(codes, tokens, data, inpos, e, Literal(data[e]), e + 1);
  }

  lemma EncodedMatch(codes: seq<nat>, tokens: seq<Token>, data: seq<byte>, inpos: nat, e: nat, length: nat, distance: nat)
    requires Encoded(codes, tokens, data, inpos, e)
    requires TrueMatch(data, e, length, distance) && 3 <= length <= MAX_LENGTH && distance <= MAX_DISTANCE
    ensures Encoded(codes + Codes(Match(length, distance)), tokens + [Match(length, distance)], data, inpos, e + length)
  {
    hide Encoded, Codes;
    CopyIsInput(data, e, length, distance);
    EncodedSnoc(codes, tokens, data, inpos, e, Match(length, distance), e + length);
  }

  // ---------- the window size check ----------

  predicate LegalWindow(windowsize: nat)
  {
    0 < windowsize <= MAX_DISTANCE && And(windowsize, windowsize - 1) == 0
  }

  lemma {:induction false} AndSame(m: nat)
    ensures And(m, m) == m
  {
    if m > 0 {
      AndSame(m / 2);
    }
  }

  /** The source's test for a power of two. */
  lemma {:induction false} PowerOfTwo(w: nat) returns (k: nat)
    requires w > 0 && And(w, w - 1) == 0
    ensures w == Pow2(k)
  {
    if w == 1 {
      k := 0;
    } else if w % 2 == 1 {
      assert (w - 1) / 2 == w / 2;
      AndSame(w / 2);
    } else {
      assert (w - 1) / 2 == w / 2 - 1;
      var j := PowerOfTwo(w / 2);
      k := j + 1;
    }
  }

  // ---------- what is chosen ----------

  /** What a block is encoded with. */
  datatype Coding = Coding(data: seq<byte>, inpos: nat, insize: nat, windowsize: nat, minmatch: nat, nicematch: nat,
                           lazymatching: bool)

  function MaxChain(windowsize: nat): nat
  {
    if windowsize >= 8192 then windowsize else windowsize / 8
  }

  function MaxLazy(windowsize: nat): nat
  {
    if windowsize >= 8192 then MAX_LENGTH else 64
  }

  /** What a search gives: a match, or length 0. */
  datatype Pick = Pick(length: nat, offset: nat)

  /** A true match in the window, and no shorter than any other that is near enough, or long enough. */
  ghost predicate PickOk(c: Coding, pos: nat, pick: Pick)
  {
    && Usable(c.data, pos, c.insize, c.windowsize, pick.length, pick.offset)
    && Complete(c.data, c.inpos, c.insize, pos, c.windowsize, MaxChain(c.windowsize),
                if c.nicematch > MAX_LENGTH then MAX_LENGTH else c.nicematch, pick.length)
  }

  /** What was found at a token's place; if that was put off, what was found one further; and whether the token
      is a literal because that was better. */
  datatype Choice = Choice(pick: Pick, next: Pick, dropped: bool)

  /** A match that is not yet written. After one that was dropped, the next is. */
  predicate PutOff(c: Coding, resumed: bool, pick: Pick)
  {
    c.lazymatching && !resumed && 3 <= pick.length <= MaxLazy(c.windowsize) && pick.length < MAX_LENGTH
  }

  /** A match of length 3 far away takes more bits than three literals. */
  predicate Worth(c: Coding, pick: Pick)
  {
    pick.length >= 3 && pick.length >= c.minmatch && (pick.length == 3 ==> pick.offset <= 4096)
  }

  ghost predicate ChoiceOk(c: Coding, pos: nat, resumed: bool, ch: Choice, t: Token)
  {
    && pos < c.insize <= |c.data| && PickOk(c, pos, ch.pick)
    && (PutOff(c, resumed, ch.pick) ==> PickOk(c, pos + 1, ch.next))
    && (ch.dropped <==> PutOff(c, resumed, ch.pick) && ch.next.length > ch.pick.length + 1)
    && t == if !ch.dropped && Worth(c, ch.pick) then Match(ch.pick.length, ch.pick.offset) else Literal(c.data[pos])
  }

  ghost predicate ChoiceAt(c: Coding, choices: seq<Choice>, tokens: seq<Token>, k: nat)
    requires k < |choices| == |tokens|
  {
    var resumed := k > 0 && choices[k - 1].dropped;
    && ChoiceOk(c, c.inpos + TotalSize(tokens[..k]), resumed, choices[k], tokens[k])
    && (resumed ==> choices[k].pick == choices[k - 1].next)
  }

  /** Each token is what was chosen at its place. */
  ghost predicate Chosen(c: Coding, choices: seq<Choice>, tokens: seq<Token>)
  {
    |choices| == |tokens| && forall k: nat :: k < |tokens| ==> ChoiceAt(c, choices, tokens, k)
  }

  /** The last token was dropped, so that what was found behind it comes next. */
  predicate Resumes(choices: seq<Choice>)
  {
    |choices| > 0 && choices[|choices| - 1].dropped
  }

  lemma ChosenSnoc(c: Coding, choices: seq<Choice>, tokens: seq<Token>, ch: Choice, t: Token, pos: nat)
    requires Chosen(c, choices, tokens) && pos == c.inpos + TotalSize(tokens)
    requires ChoiceOk(c, pos, Resumes(choices), ch, t)
    requires Resumes(choices) ==> ch.pick == choices[|choices| - 1].next
    ensures Chosen(c, choices + [ch], tokens + [t])
  {
    hide ChoiceOk, TotalSize;
    var cs, ts := choices + [ch], tokens + [t];
    forall k: nat | k < |ts|
      ensures ChoiceAt(c, cs, ts, k)
    {
      if k < |tokens| {
        assert ChoiceAt(c, choices, tokens, k);
        assert ts[..k] == tokens[..k];
      } else {
        assert ts[..k] == tokens;
      }
    }
  }

  lemma NothingChosen(c: Coding)
    ensures Chosen(c, [], [])
  {
  }

  /** A token is a literal exactly if its match was dropped, is too short, or is of length 3 from far away; otherwise
      it is the match that was found. */
  lemma LiteralExactly(c: Coding, choices: seq<Choice>, tokens: seq<Token>, k: nat)
    requires Chosen(c, choices, tokens) && k < |tokens|
    ensures var pick := choices[k].pick;
            && (tokens[k].Literal? <==>
                choices[k].dropped || pick.length < 3 || pick.length < c.minmatch || (pick.length == 3 && pick.offset > 4096))
            && (tokens[k].Match? ==> tokens[k] == Match(pick.length, pick.offset))
    ensures c.inpos + TotalSize(tokens[..k]) < |c.data|
    ensures tokens[k].Literal? ==> tokens[k].b == c.data[c.inpos + TotalSize(tokens[..k])]
  {
    hide TotalSize, PickOk;
    assert ChoiceAt(c, choices, tokens, k);
  }

  /** A match is dropped only for one that is longer by two or more, and only if it is not long itself. */
  lemma DroppedForLonger(c: Coding, choices: seq<Choice>, tokens: seq<Token>, k: nat)
    requires Chosen(c, choices, tokens) && k + 1 < |tokens| && choices[k].dropped
    ensures c.lazymatching && 3 <= choices[k].pick.length <= (if c.windowsize >= 8192 then 257 else 64)
    ensures tokens[k].Literal? && choices[k + 1].pick.length >= choices[k].pick.length + 2
    ensures !choices[k + 1].dropped
    ensures choices[k + 1].pick.length >= c.minmatch ==>
              tokens[k + 1] == Match(choices[k + 1].pick.length, choices[k + 1].pick.offset)
  {
    hide TotalSize, PickOk;
    assert ChoiceAt(c, choices, tokens, k);
    assert ChoiceAt(c, choices, tokens, k + 1);
  }

  /** No match is missed: where a literal stands that was not dropped for a longer match, every match that a search
      can reach is shorter than 4, or than the shortest that is wanted. */
  lemma NoMissedMatch(c: Coding, choices: seq<Choice>, tokens: seq<Token>, k: nat, o: nat, l: nat)
    requires Chosen(c, choices, tokens) && k < |tokens| && tokens[k].Literal? && !choices[k].dropped
    requires 4 <= c.nicematch && c.minmatch <= c.nicematch && c.minmatch <= MAX_LENGTH
    requires var pos := c.inpos + TotalSize(tokens[..k]);
             && TrueMatch(c.data, pos, l, o) && l <= MAX_LENGTH && pos + l <= c.insize && c.inpos + o <= pos
             && o < c.windowsize && (c.windowsize >= 8192 || 8 * o <= c.windowsize)
    ensures l < 4 || l < c.minmatch
  {
    hide TotalSize, TrueMatch;
    assert ChoiceAt(c, choices, tokens, k);
  }

  // ---------- the encoder ----------

  /** Writes what was found at pos: a match that is worth it, or one literal. */
  method Emit(codes: seq<nat>, ghost tokens: seq<Token>, data: seq<byte>, ghost inpos: nat, pos: nat, insize: nat,
              ghost windowsize: nat, length: nat, offset: nat, minmatch: nat, ghost c: Coding)
    returns (newcodes: seq<nat>, ghost token: Token, matched: bool)
    requires Encoded(codes, tokens, data, inpos, pos) && pos < insize <= |data| && windowsize <= MAX_DISTANCE
    requires Usable(data, pos, insize, windowsize, length, offset) && minmatch == c.minmatch
    ensures Encoded(newcodes, tokens + [token], data, inpos, if matched then pos + length else pos + 1)
    ensures matched == Worth(c, Pick(length, offset))
    ensures token == if matched then Match(length, offset) else Literal(data[pos])
    ensures matched ==> length >= 3 && pos + length <= insize
  {
    hide Encoded;
    if length < 3 || length < minmatch || (length == 3 && offset > 4096) {
      EncodedLiteral(codes, tokens, data, inpos, pos);
      newcodes, token, matched := codes + [data[pos]], Literal(data[pos]), false;
    } else {
      EncodedMatch(codes, tokens, data, inpos, pos, length, offset);
      newcodes := AddLengthDistance(codes, length, offset);
      token, matched := Match(length, offset), true;
    }
  }

  /** Encodes data[inpos..insize]; the codes expand to exactly those bytes after what precedes them. */
  method EncodeLZ77(hash: Hash, data: seq<byte>, inpos: nat, insize: nat, windowsize: nat,
                    minmatch: nat, nicematch: nat, lazymatching: bool)
    returns (error: nat, codes: seq<nat>, ghost tokens: seq<Token>, ghost choices: seq<Choice>)
    requires inpos <= insize <= |data|
    requires LegalWindow(windowsize) ==>
               hash.Valid(data, inpos) && hash.windowsize == windowsize && Chained(hash.Holds(), inpos, -1, -1)
    modifies hash, hash.head, hash.chain, hash.val, hash.headz, hash.chainz, hash.zeros
    ensures error == if windowsize == 0 || windowsize > 32768 then 60 else if !LegalWindow(windowsize) then 90 else 0
    ensures error == 0 ==> Encoded(codes, tokens, data, inpos, insize)
    ensures error == 0 ==> Chosen(Coding(data, inpos, insize, windowsize, minmatch, nicematch, lazymatching), choices, tokens)
    ensures error == 0 ==> hash.Valid(data, insize) && Chained(hash.Holds(), insize, -1, -1)
  {
    hide Low, Pow2, Encoded, And, Chosen, Chained;
    codes, tokens, choices := [], [], [];
    if windowsize == 0 || windowsize > 32768 {
      return 60, codes, tokens, choices;
    }
    if And(windowsize, windowsize - 1) != 0 {
      return 90, codes, tokens, choices;
    }
    ghost var c := Coding(data, inpos, insize, windowsize, minmatch, nicematch, lazymatching);
    codes, tokens, choices := EncodeWindow(hash, data, inpos, insize, minmatch, nicematch, lazymatching, c);
    error := 0;
  }

  method EncodeWindow(hash: Hash, data: seq<byte>, inpos: nat, insize: nat,
                      minmatch: nat, nicematch0: nat, lazymatching: bool, ghost c: Coding)
    returns (codes: seq<nat>, ghost tokens: seq<Token>, ghost choices: seq<Choice>)
    requires inpos <= insize <= |data| && hash.Valid(data, inpos) && hash.windowsize <= MAX_DISTANCE
    requires Chained(hash.Holds(), inpos, -1, -1)
    requires c == Coding(data, inpos, insize, hash.windowsize, minmatch, nicematch0, lazymatching)
    modifies hash, hash.head, hash.chain, hash.val, hash.headz, hash.chainz, hash.zeros
    ensures Encoded(codes, tokens, data, inpos, insize) && Chosen(c, choices, tokens)
    ensures hash.Valid(data, insize) && Chained(hash.Holds(), insize, -1, -1)
  {
    hide Low, Pow2, Encoded, Zeros, CarriedZeros, TrueMatch, Usable, BestOf, Visits, SearchOk, Chosen, Chained, Linking,
         HashAt, ZerosAt, PickOk, Complete;
    var windowsize := hash.windowsize;
    var maxchainlength := if windowsize >= 8192 then windowsize else windowsize / 8;
    var maxlazymatch := if windowsize >= 8192 then MAX_LENGTH else 64;
    var nicematch := if nicematch0 > MAX_LENGTH then MAX_LENGTH else nicematch0;
    codes, tokens, choices := [], [], [];
    NothingEncoded(data, inpos);
    NothingChosen(c);
    NextBlock(hash.Holds(), data, insize, inpos);
    var numzeros, lazy, lazylength, lazyoffset := 0, false, 0, 0;
    var pos := inpos;
    ghost var n := inpos;
    NoZerosCarried(data, insize, pos);
    while pos < insize
      invariant inpos <= pos <= insize && (n == pos || n == pos + 1) && inpos <= n <= insize
      invariant hash.Valid(data, n) && hash.windowsize == windowsize
      invariant Linking(hash.Holds(), data, insize, inpos, n, n == pos + 1)
      invariant CarriedZeros(data, insize, pos, numzeros)
      invariant lazy ==> n == pos && inpos < pos < insize && lazylength <= insize - (pos - 1)
      invariant lazy ==> PickOk(c, pos - 1, Pick(lazylength, lazyoffset)) && PutOff(c, false, Pick(lazylength, lazyoffset))
      invariant Encoded(codes, tokens, data, inpos, if lazy then pos - 1 else pos)
      invariant Chosen(c, choices, tokens) && !Resumes(choices)
      decreases insize - (if lazy then pos - 1 else pos), if lazy then 0 else 1
    {
      var hashval, length, offset;
      numzeros, hashval, length, offset := SearchAt(hash, data, inpos, pos, insize, numzeros, maxchainlength, nicematch, n, c);
      n := pos + 1;
      ghost var found := Pick(length, offset);
      if lazymatching && !lazy && length >= 3 && length <= maxlazymatch && length < MAX_LENGTH {
        lazy, lazylength, lazyoffset := true, length, offset;
        KeepZeros(data, insize, pos, numzeros);
        PickSize(c, pos, found);
        pos := pos + 1;
        continue;
      }
      if lazymatching && lazy {
        lazy := false;
        codes, tokens, choices, pos, length, offset :=
          ResolveLazy(hash, codes, tokens, choices, data, inpos, pos, insize, hashval, numzeros, length, offset,
                      lazylength, lazyoffset, c);
      }
      codes, tokens, choices, pos, numzeros, n :=
        EmitAndInsert(hash, codes, tokens, choices, data, inpos, pos, insize, length, offset, minmatch, numzeros, n, c, found);
    }
    BlockDone(hash.Holds(), data, insize, inpos, n);
  }

  /** Inserts a position and looks for the longest match there. */
  method SearchAt(hash: Hash, data: seq<byte>, ghost inpos: nat, pos: nat, insize: nat, numzeros: nat, maxchainlength: nat,
                  nicematch: nat, ghost n: nat, ghost c: Coding)
    returns (newzeros: nat, hashval: nat, length: nat, offset: nat)
    requires hash.Valid(data, n) && (pos == n || pos + 1 == n)
    requires inpos <= pos < insize <= |data| && CarriedZeros(data, insize, pos, numzeros)
    requires Linking(hash.Holds(), data, insize, inpos, n, pos + 1 == n)
    requires c.data == data && c.inpos == inpos && c.insize == insize && c.windowsize == hash.windowsize
    requires maxchainlength == MaxChain(c.windowsize) && nicematch == if c.nicematch > MAX_LENGTH then MAX_LENGTH else c.nicematch
    modifies hash, hash.head, hash.chain, hash.val, hash.headz, hash.chainz, hash.zeros
    ensures hash.Valid(data, pos + 1) && Linking(hash.Holds(), data, insize, inpos, pos + 1, false)
    ensures newzeros == ZerosAt(data, insize, pos) && hashval == HashAt(data, insize, pos) < HASH_NUM_VALUES
    ensures PickOk(c, pos, Pick(length, offset))
  {
    hide Low, Pow2, Zeros, CarriedZeros, Usable, BestOf, Visits, SearchOk, Linking, HashAt, ZerosAt, PickOk, Complete;
    var wpos;
    newzeros, hashval, wpos := InsertPosition(hash, data, inpos, insize, pos, numzeros, n);
    ghost var seen;
    length, offset, seen := FindMatch(hash, data, inpos, pos, wpos, insize, newzeros, hashval, maxchainlength, nicematch);
    PickMade(c, pos, Pick(length, offset), maxchainlength, nicematch);
  }

  lemma PickMade(c: Coding, pos: nat, pick: Pick, maxchainlength: nat, nicematch: nat)
    requires Usable(c.data, pos, c.insize, c.windowsize, pick.length, pick.offset)
    requires Complete(c.data, c.inpos, c.insize, pos, c.windowsize, maxchainlength, nicematch, pick.length)
    requires maxchainlength == MaxChain(c.windowsize) && nicematch == if c.nicematch > MAX_LENGTH then MAX_LENGTH else c.nicematch
    ensures PickOk(c, pos, pick)
  {
  }

  lemma PickSize(c: Coding, pos: nat, pick: Pick)
    requires PickOk(c, pos, pick) && pos < c.insize
    ensures Usable(c.data, pos, c.insize, c.windowsize, pick.length, pick.offset)
    ensures pos + pick.length <= c.insize && (pick.length > 0 ==> 0 < pick.offset < c.windowsize)
  {
  }

  /** Writes what was chosen at pos and inserts the positions it covers. The match is always inside
      the window, so the source's error 86 is never reached. */
  method EmitAndInsert(hash: Hash, codes: seq<nat>, ghost tokens: seq<Token>, ghost choices: seq<Choice>, data: seq<byte>,
                       ghost inpos: nat, pos: nat, insize: nat, length: nat, offset: nat, minmatch: nat, numzeros: nat,
                       ghost n: nat, ghost c: Coding, ghost found: Pick)
    returns (newcodes: seq<nat>, ghost newtokens: seq<Token>, ghost newchoices: seq<Choice>, newpos: nat, newzeros: nat,
             ghost m: nat)
    requires hash.Valid(data, n) && (n == pos + 1 || n == pos + 2) && n <= insize && inpos <= pos
    requires c.data == data && c.inpos == inpos && c.insize == insize && c.windowsize == hash.windowsize && c.minmatch == minmatch
    requires pos < insize <= |data| && hash.windowsize <= MAX_DISTANCE && numzeros == ZerosAt(data, insize, n - 1)
    requires Linking(hash.Holds(), data, insize, inpos, n, n == pos + 2)
    requires Encoded(codes, tokens, data, inpos, pos) && Chosen(c, choices, tokens)
    requires PickOk(c, pos, Pick(length, offset))
    requires Resumes(choices) ==> Pick(length, offset) == choices[|choices| - 1].next
    requires PutOff(c, Resumes(choices), Pick(length, offset)) ==> PickOk(c, pos + 1, found) && found.length <= length + 1
    modifies hash, hash.head, hash.chain, hash.val, hash.headz, hash.chainz, hash.zeros
    ensures pos < newpos <= insize && (m == newpos || m == newpos + 1) && m <= insize
    ensures hash.Valid(data, m) && CarriedZeros(data, insize, newpos, newzeros)
    ensures Linking(hash.Holds(), data, insize, inpos, m, m == newpos + 1)
    ensures Encoded(newcodes, newtokens, data, inpos, newpos) && Chosen(c, newchoices, newtokens) && !Resumes(newchoices)
  {
    hide Low, Pow2, Encoded, Zeros, CarriedZeros, Usable, Chosen, Linking, HashAt, ZerosAt, PickOk, Complete;
    PickSize(c, pos, Pick(length, offset));
    assert !(length >= 3 && offset > hash.windowsize);
    var matched;
    ghost var token;
    newcodes, token, matched := Emit(codes, tokens, data, inpos, pos, insize, hash.windowsize, length, offset, minmatch, c);
    EncodedPlace(codes, tokens, data, inpos, pos);
    newtokens, newchoices := tokens + [token], choices + [Choice(Pick(length, offset), found, false)];
    ChosenSnoc(c, choices, tokens, Choice(Pick(length, offset), found, false), token, pos);
    newpos, newzeros, m := pos, numzeros, n;
    if matched {
      newzeros := InsertRun(hash, data, inpos, insize, pos, length, numzeros, n);
      newpos := pos + length - 1;
      m := newpos + 1;
    }
    KeepZerosAt(data, insize, newpos, m, newzeros);
    newpos := newpos + 1;
  }

  lemma EncodedPlace(codes: seq<nat>, tokens: seq<Token>, data: seq<byte>, inpos: nat, e: nat)
    requires Encoded(codes, tokens, data, inpos, e)
    ensures inpos + TotalSize(tokens) == e
  {
    hide AllCodes;
    ExpandSize(tokens, data, inpos, e);
  }

  /** The match at the previous position was put off to see whether this one is longer. If it is, the
      previous byte becomes a literal; otherwise the encoder goes back to the previous position. */
  method ResolveLazy(hash: Hash, codes: seq<nat>, ghost tokens: seq<Token>, ghost choices: seq<Choice>, data: seq<byte>,
                     ghost inpos: nat, pos: nat, ghost insize: nat, hashval: nat, numzeros: nat, length: nat, offset: nat,
                     lazylength: nat, lazyoffset: nat, ghost c: Coding)
    returns (newcodes: seq<nat>, ghost newtokens: seq<Token>, ghost newchoices: seq<Choice>, newpos: nat, newlength: nat,
             newoffset: nat)
    requires hash.Valid(data, pos + 1) && inpos < pos < insize <= |data|
    requires c.data == data && c.inpos == inpos && c.insize == insize && c.windowsize == hash.windowsize
    requires Linking(hash.Holds(), data, insize, inpos, pos + 1, false)
    requires hashval == HashAt(data, insize, pos) < HASH_NUM_VALUES && numzeros == ZerosAt(data, insize, pos)
    requires Encoded(codes, tokens, data, inpos, pos - 1) && Chosen(c, choices, tokens) && !Resumes(choices)
    requires PickOk(c, pos, Pick(length, offset)) && PickOk(c, pos - 1, Pick(lazylength, lazyoffset))
    requires PutOff(c, false, Pick(lazylength, lazyoffset))
    modifies hash.head, hash.headz
    ensures hash.Valid(data, pos + 1) && Linking(hash.Holds(), data, insize, inpos, pos + 1, newpos + 1 == pos)
    ensures newpos == if length > lazylength + 1 then pos else pos - 1
    ensures Encoded(newcodes, newtokens, data, inpos, newpos) && Chosen(c, newchoices, newtokens)
    ensures if newpos == pos then Resumes(newchoices) && newchoices[|newchoices| - 1].next == Pick(length, offset)
            else newchoices == choices
    ensures Pick(newlength, newoffset) == if newpos == pos then Pick(length, offset) else Pick(lazylength, lazyoffset)
  {
    hide Low, Pow2, Encoded, Zeros, PickOk, Chosen, Linking, HashAt, ZerosAt, TotalSize;
    newcodes, newtokens, newchoices, newpos, newlength, newoffset := codes, tokens, choices, pos, length, offset;
    if length > lazylength + 1 {
      EncodedLiteral(codes, tokens, data, inpos, pos - 1);
      EncodedPlace(codes, tokens, data, inpos, pos - 1);
      ghost var ch := Choice(Pick(lazylength, lazyoffset), Pick(length, offset), true);
      ChosenSnoc(c, choices, tokens, ch, Literal(data[pos - 1]), pos - 1);
      newcodes, newtokens := codes + [data[pos - 1]], tokens + [Literal(data[pos - 1])];
      newchoices := choices + [ch];
    } else {
      newlength, newoffset := lazylength, lazyoffset;
      ForgetPends(hash.Holds(), data, insize, inpos, pos + 1);
      hash.Forget(hashval, numzeros, data, pos + 1);
      newpos := pos - 1;
    }
  }

  lemma NoZerosCarried(data: seq<byte>, end: nat, pos: nat)
    requires end <= |data|
    ensures CarriedZeros(data, end, pos, 0)
  {
  }

  /** The count for a position is carried to the next one. */
  lemma KeepZeros(data: seq<byte>, end: nat, pos: nat, n: nat)
    requires end <= |data| && n == ZerosAt(data, end, pos)
    ensures CarriedZeros(data, end, pos + 1, n)
  {
  }

  /** The count for the last inserted position, pos or the one after it, is carried on. */
  lemma KeepZerosAt(data: seq<byte>, end: nat, pos: nat, n: nat, z: nat)
    requires end <= |data| && (n == pos + 1 || n == pos + 2) && z == ZerosAt(data, end, n - 1)
    ensures CarriedZeros(data, end, pos + 1, z)
  {
  }

  // ---------- an example ----------

  /** Ten times the same byte: a literal, and one match for the other nine. */
  lemma TenChosen(c: Coding, choices: seq<Choice>, tokens: seq<Token>)
    requires c == Coding(seq<byte>(10, i => 97), 0, 10, 2048, 3, 128, true) && Chosen(c, choices, tokens)
    requires TotalSize(tokens) == 10
    ensures tokens == [Literal(97), Match(9, 1)]
  {
    hide PickOk, TotalSize;
    SizeNone(tokens);
    assert ChoiceAt(c, choices, tokens, 0);
    NothingBefore(c, choices[0].pick);
    SizeOne(tokens);
    assert ChoiceAt(c, choices, tokens, 1);
    NineFollow(c, choices[1].pick, choices[1].next);
    forall k: nat | k < |tokens|
      ensures TokenSize(tokens[k]) > 0
    {
      assert ChoiceAt(c, choices, tokens, k);
    }
    SizeTwo(tokens);
  }

  lemma NothingBefore(c: Coding, pick: Pick)
    requires c == Coding(seq<byte>(10, i => 97), 0, 10, 2048, 3, 128, true) && PickOk(c, 0, pick)
    ensures pick.length == 0
  {
    hide Complete;
  }

  lemma NineFollow(c: Coding, pick: Pick, next: Pick)
    requires c == Coding(seq<byte>(10, i => 97), 0, 10, 2048, 3, 128, true) && PickOk(c, 1, pick)
    ensures pick == Pick(9, 1) && (PickOk(c, 2, next) ==> next.length <= 8)
  {
    assert TrueMatch(c.data, 1, 9, 1);
  }

  lemma SizeNone(tokens: seq<Token>)
    requires TotalSize(tokens) == 10
    ensures |tokens| > 0 && TotalSize(tokens[..0]) == 0
  {
  }

  /** The first token is one byte, so there is a second one. */
  lemma SizeOne(tokens: seq<Token>)
    requires |tokens| > 0 && tokens[0] == Literal(97) && TotalSize(tokens) == 10
    ensures |tokens| > 1 && TotalSize(tokens[..1]) == 1
  {
    assert tokens[..1][..0] == [];
    if |tokens| == 1 {
      OneToken(tokens);
    }
  }

  lemma OneToken(tokens: seq<Token>)
    requires |tokens| == 1
    ensures TotalSize(tokens) == TokenSize(tokens[0])
  {
  }

  lemma SizeTwo(tokens: seq<Token>)
    requires |tokens| > 1 && tokens[0] == Literal(97) && tokens[1] == Match(9, 1) && TotalSize(tokens) == 10
    requires forall k :: 0 <= k < |tokens| ==> TokenSize(tokens[k]) > 0
    ensures |tokens| == 2
  {
    hide TotalSize;
    SizeOne(tokens);
    SizeNext(tokens, 1);
    SizeGrows(tokens, 2);
  }

  lemma SizeNext(tokens: seq<Token>, k: nat)
    requires k < |tokens|
    ensures TotalSize(tokens[..k + 1]) == TotalSize(tokens[..k]) + TokenSize(tokens[k])
  {
    assert tokens[..k + 1][..k] == tokens[..k];
  }

  lemma {:induction false} SizeGrows(tokens: seq<Token>, k: nat)
    requires k <= |tokens| && forall i :: 0 <= i < |tokens| ==> TokenSize(tokens[i]) > 0
    ensures k < |tokens| ==> TotalSize(tokens[..k]) < TotalSize(tokens)
    decreases |tokens| - k
  {
    if k < |tokens| {
      SizeNext(tokens, k);
      if k + 1 == |tokens| { assert tokens[..k + 1] == tokens; } else { SizeGrows(tokens, k + 1); }
    }
  }

  /** What the encoder makes of them, with the settings it uses unless told otherwise. */
  method TenBytes(hash: Hash) returns (codes: seq<nat>)
    requires hash.Valid(seq<byte>(10, i => 97), 0) && hash.windowsize == 2048 && Chained(hash.Holds(), 0, -1, -1)
    modifies hash, hash.head, hash.chain, hash.val, hash.headz, hash.chainz, hash.zeros
    ensures codes == [97, 263, 0, 0, 0]
  {
    hide Chosen, Encoded, Chained;
    var data := seq<byte>(10, i => 97);
    LegalWindow2048();
    var error;
    ghost var tokens, choices;
    error, codes, tokens, choices := EncodeLZ77(hash, data, 0, 10, 2048, 3, 128, true);
    EncodedPlace(codes, tokens, data, 0, 10);
    TenChosen(Coding(data, 0, 10, 2048, 3, 128, true), choices, tokens);
    TenCodes(codes, data);
  }

  lemma {:induction false} NoCommonBits(k: nat)
    ensures And(Pow2(k), Pow2(k) - 1) == 0
  {
    if k > 0 {
      var m := Pow2(k - 1);
      assert (2 * m - 1) / 2 == m - 1 && (2 * m - 1) % 2 == 1 && 2 * m / 2 == m && 2 * m % 2 == 0;
      NoCommonBits(k - 1);
    }
  }

  lemma LegalWindow2048()
    ensures LegalWindow(2048)
  {
    hide And;
    NoCommonBits(11);
    assert Pow2(11) == 2048;
  }

  lemma TenCodes(codes: seq<nat>, data: seq<byte>)
    requires Encoded(codes, [Literal(97), Match(9, 1)], data, 0, 10)
    ensures codes == [97, 263, 0, 0, 0]
  {
    hide Expand, AllFit, DISTANCEBASE, LENGTHBASE;
    var ts := [Literal(97), Match(9, 1)];
    assert ts[..1] == [Literal(97)] && ts[..1][..0] == [];
    NineIndex();
    assert AllCodes(ts[..1]) == [97];
  }

  lemma NineIndex()
    ensures LengthIndex(9) == 6 && |LENGTHBASE| == 29 && LENGTHBASE[6] == 9
    ensures DistanceIndex(1) == 0 && |DISTANCEBASE| == 30 && DISTANCEBASE[0] == 1
  {
    hide LENGTHBASE, DISTANCEBASE, LengthIndex, DistanceIndex;
    TablesIncreasing();
    MatchIndices(9, 1);
    BaseOfNine();
    BaseOfOne();
    IndexUnique(LENGTHBASE, LengthIndex(9), 6, 9);
    IndexUnique(DISTANCEBASE, DistanceIndex(1), 0, 1);
  }

  lemma BaseOfNine()
    ensures IndexFor(LENGTHBASE, 6, 9) && LENGTHBASE[6] == 9
  {
  }

  lemma BaseOfOne()
    ensures IndexFor(DISTANCEBASE, 0, 1) && DISTANCEBASE[0] == 1
  {
  }
}
