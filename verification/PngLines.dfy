/**
 Byte and bit sequences cut into lines: what the scanline code does with its buffers is to
 overwrite part of one with lines of equal length.
 */
module PngLines {

  /** n lines of len each: n * len, without the product. */
  function Rows(n: nat, len: nat): nat
  {
    if n == 0 then 0 else Rows(n - 1, len) + len
  }

  lemma {:induction false} RowsIsProduct(n: nat, len: nat)
    ensures Rows(n, len) == n * len
  {
    if n > 0 {
      RowsIsProduct(n - 1, len);
      assert n * len == (n - 1) * len + len;
    }
  }

  lemma {:induction false} RowsMono(m: nat, n: nat, len: nat)
    requires m <= n
    ensures Rows(m, len) <= Rows(n, len)
    ensures m < n ==> Rows(m, len) + len <= Rows(n, len)
  {
    if m < n {
      RowsMono(m, n - 1, len);
    }
  }

  lemma {:induction false} EightTimes(n: nat, len: nat)
    ensures Rows(n, 8 * len) == 8 * Rows(n, len)
  {
    if n > 0 {
      EightTimes(n - 1, len);
    }
  }

  lemma {:induction false} RowsLonger(n: nat, a: nat, b: nat)
    requires a <= b
    ensures Rows(n, a) <= Rows(n, b)
  {
    if n > 0 {
      RowsLonger(n - 1, a, b);
    }
  }

  // ---------- overwriting part of a buffer ----------

  /** The buffer with c written at pos. */
  function Overwrite<T>(s: seq<T>, pos: nat, c: seq<T>): (r: seq<T>)
    requires pos + |c| <= |s|
    ensures |r| == |s|
  {
    s[..pos] + c + s[pos + |c|..]
  }

  lemma OverwriteNothing<T>(s: seq<T>, pos: nat)
    requires pos <= |s|
    ensures Overwrite(s, pos, []) == s
  {
  }

  lemma OverwriteSnoc<T>(s: seq<T>, pos: nat, c: seq<T>, x: T)
    requires pos + |c| < |s|
    ensures Overwrite(s, pos, c)[pos + |c| := x] == Overwrite(s, pos, c + [x])
  {
  }

  lemma OverwriteMore<T>(s: seq<T>, pos: nat, c: seq<T>, d: seq<T>)
    requires pos + |c| + |d| <= |s|
    ensures Overwrite(Overwrite(s, pos, c), pos + |c|, d) == Overwrite(s, pos, c + d)
  {
  }

  /** What was written can be read; what lies elsewhere is as before. */
  lemma OverwriteRead<T>(s: seq<T>, pos: nat, c: seq<T>)
    requires pos + |c| <= |s|
    ensures Overwrite(s, pos, c)[pos..pos + |c|] == c
  {
  }

  lemma OverwriteElsewhere<T>(s: seq<T>, pos: nat, c: seq<T>, p: nat, n: nat)
    requires pos + |c| <= |s| && p + n <= |s| && (p + n <= pos || pos + |c| <= p)
    ensures Overwrite(s, pos, c)[p..p + n] == s[p..p + n]
  {
  }

  // ---------- lines ----------

  ghost predicate LinesOf<T>(ls: seq<seq<T>>, len: nat)
  {
    forall y :: 0 <= y < |ls| ==> |ls[y]| == len
  }

  function Flat<T>(ls: seq<seq<T>>): seq<T>
  {
    if |ls| == 0 then [] else Flat(ls[..|ls| - 1]) + ls[|ls| - 1]
  }

  lemma {:induction false} FlatSize<T>(ls: seq<seq<T>>, len: nat)
    requires LinesOf(ls, len)
    ensures |Flat(ls)| == Rows(|ls|, len)
  {
    if |ls| > 0 {
      FlatSize(ls[..|ls| - 1], len);
    }
  }

  /** Line y of the flat buffer. */
  lemma {:induction false} FlatLine<T>(ls: seq<seq<T>>, len: nat, y: nat)
    requires LinesOf(ls, len) && y < |ls|
    ensures Rows(y, len) + len <= |Flat(ls)| && Flat(ls)[Rows(y, len)..Rows(y, len) + len] == ls[y]
  {
    var front := ls[..|ls| - 1];
    FlatSize(front, len);
    FlatSize(ls, len);
    RowsMono(y, |ls|, len);
    if y < |ls| - 1 {
      FlatLine(front, len, y);
      RowsMono(y, |ls| - 1, len);
      assert Flat(ls)[Rows(y, len)..Rows(y, len) + len] == Flat(front)[Rows(y, len)..Rows(y, len) + len];
    }
  }

  lemma FlatSnoc<T>(ls: seq<seq<T>>, l: seq<T>)
    ensures Flat(ls + [l]) == Flat(ls) + l
  {
    assert (ls + [l])[..|ls|] == ls;
  }

  /** A buffer cut into n lines. */
  function Chop<T>(s: seq<T>, len: nat, n: nat): (ls: seq<seq<T>>)
    requires Rows(n, len) <= |s|
    ensures |ls| == n && LinesOf(ls, len)
  {
    if n == 0 then []
    else
      RowsMono(n - 1, n, len);
      Chop(s, len, n - 1) + [s[Rows(n - 1, len)..Rows(n - 1, len) + len]]
  }

  lemma {:induction false} FlatChop<T>(s: seq<T>, len: nat, n: nat)
    requires Rows(n, len) <= |s|
    ensures Flat(Chop(s, len, n)) == s[..Rows(n, len)]
  {
    if n > 0 {
      RowsMono(n - 1, n, len);
      FlatChop(s, len, n - 1);
      FlatSnoc(Chop(s, len, n - 1), s[Rows(n - 1, len)..Rows(n - 1, len) + len]);
      assert s[..Rows(n, len)] == s[..Rows(n - 1, len)] + s[Rows(n - 1, len)..Rows(n - 1, len) + len];
    }
  }

  lemma {:induction false} ChopFlat<T>(ls: seq<seq<T>>, len: nat, more: seq<T>, n: nat)
    requires LinesOf(ls, len) && n <= |ls|
    ensures Rows(n, len) <= |Flat(ls) + more| && Chop(Flat(ls) + more, len, n) == ls[..n]
  {
    FlatSize(ls, len);
    RowsMono(n, |ls|, len);
    if n > 0 {
      RowsMono(n - 1, n, len);
      ChopFlat(ls, len, more, n - 1);
      FlatLine(ls, len, n - 1);
      assert (Flat(ls) + more)[Rows(n - 1, len)..Rows(n - 1, len) + len]
          == Flat(ls)[Rows(n - 1, len)..Rows(n - 1, len) + len];
    }
  }

  /** Line y of a chopped buffer. */
  lemma {:induction false} ChopLine<T>(s: seq<T>, len: nat, n: nat, y: nat)
    requires Rows(n, len) <= |s| && y < n
    ensures Rows(y, len) + len <= |s| && Chop(s, len, n)[y] == s[Rows(y, len)..Rows(y, len) + len]
  {
    hide Rows;
    RowsMono(y, n, len);
    RowsMono(n - 1, n, len);
    if y < n - 1 {
      ChopLine(s, len, n - 1, y);
    }
  }

  /** A part of a part. */
  lemma PartOfPart<T>(a: seq<T>, off: nat, q: nat, p: nat, n: nat)
    requires off + q <= |a| && p + n <= q
    ensures a[off..off + q][p..p + n] == a[off + p..off + p + n]
  {
    var s, x, y := a[off..off + q], a[off..off + q][p..p + n], a[off + p..off + p + n];
    forall k | 0 <= k < n
      ensures x[k] == y[k]
    {
      assert x[k] == s[p + k] == a[off + (p + k)];
    }
    assert x == y;
  }

  /** Parts of equal parts are equal. */
  lemma PartsAgree<T>(a: seq<T>, b: seq<T>, off: nat, q: nat, p: nat, n: nat)
    requires off + q <= |a| && off + q <= |b| && a[off..off + q] == b[off..off + q] && p + n <= q
    ensures a[off + p..off + p + n] == b[off + p..off + p + n]
  {
    PartOfPart(a, off, q, p, n);
    PartOfPart(b, off, q, p, n);
  }
}
