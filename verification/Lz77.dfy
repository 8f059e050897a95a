/**
 LZ77 tokens: what they expand to, and how they are written as numbers (RFC 1951 section 3.2.5).
 */
module Lz77 {
  import opened Bits

  datatype Token = Literal(b: byte) | Match(length: nat, distance: nat)

  const MAX_LENGTH: nat := 258
  const MAX_DISTANCE: nat := 32768

  /** Copies bytes from `distance` back, one by one, so a copy may read what it has just written. */
  function Copy(out: seq<byte>, length: nat, distance: nat): (r: seq<byte>)
    requires 1 <= distance <= |out|
    ensures |r| == |out| + length
    decreases length
  {
    if length == 0 then out
    else Copy(out + [out[|out| - distance]], length - 1, distance)
  }

  /** A token that may follow n bytes of output. */
  predicate Fits(t: Token, n: nat)
  {
    t.Match? ==> 3 <= t.length <= MAX_LENGTH && 1 <= t.distance <= MAX_DISTANCE && t.distance <= n
  }

  function TokenSize(t: Token): nat
  {
    match t
    case Literal(_) => 1
    case Match(l, _) => l
  }

  function ExpandOne(t: Token, out: seq<byte>): (r: seq<byte>)
    requires Fits(t, |out|)
    ensures |r| == |out| + TokenSize(t)
  {
    match t
    case Literal(b) => out + [b]
    case Match(l, d) => Copy(out, l, d)
  }

  /** Tokens in the order they were produced; the last one is expanded last. */
  predicate AllFit(ts: seq<Token>, n: nat)
  {
    |ts| == 0 || (AllFit(ts[..|ts| - 1], n) && Fits(ts[|ts| - 1], n + TotalSize(ts[..|ts| - 1])))
  }

  function TotalSize(ts: seq<Token>): nat
  {
    if |ts| == 0 then 0 else TotalSize(ts[..|ts| - 1]) + TokenSize(ts[|ts| - 1])
  }

  function Expand(ts: seq<Token>, out: seq<byte>): (r: seq<byte>)
    requires AllFit(ts, |out|)
    ensures |r| == |out| + TotalSize(ts)
  {
    if |ts| == 0 then out else ExpandOne(ts[|ts| - 1], Expand(ts[..|ts| - 1], out))
  }

  lemma ExpandSnoc(ts: seq<Token>, t: Token, out: seq<byte>)
    requires AllFit(ts, |out|) && Fits(t, |out| + TotalSize(ts))
    ensures AllFit(ts + [t], |out|) && Expand(ts + [t], out) == ExpandOne(t, Expand(ts, out))
  {
    assert (ts + [t])[..|ts + [t]| - 1] == ts;
  }

  /** The bytes from pos on are those `distance` back. */
  ghost predicate TrueMatch(data: seq<byte>, pos: nat, length: nat, distance: nat)
  {
    && 1 <= distance <= pos && pos + length <= |data|
    && forall q :: pos <= q < pos + length ==> data[q] == data[q - distance]
  }

  /** A copy of a true match appends the bytes of the input. */
  lemma {:induction false} CopyIsInput(data: seq<byte>, pos: nat, length: nat, distance: nat)
    requires TrueMatch(data, pos, length, distance)
    ensures Copy(data[..pos], length, distance) == data[..pos + length]
    decreases length
  {
    if length > 0 {
      assert data[..pos] + [data[pos]] == data[..pos + 1];
      CopyIsInput(data, pos + 1, length - 1, distance);
    }
  }

  // ---------- length and distance symbols ----------

  const LENGTHBASE: seq<nat> :=
    [3, 4, 5, 6, 7, 8, 9, 10, 11, 13, 15, 17, 19, 23, 27, 31, 35, 43, 51, 59, 67, 83, 99, 115, 131, 163, 195, 227, 258]
  const LENGTHEXTRA: seq<nat> :=
    [0, 0, 0, 0, 0, 0, 0, 0, 1, 1, 1, 1, 2, 2, 2, 2, 3, 3, 3, 3, 4, 4, 4, 4, 5, 5, 5, 5, 0]
  const DISTANCEBASE: seq<nat> :=
    [1, 2, 3, 4, 5, 7, 9, 13, 17, 25, 33, 49, 65, 97, 129, 193, 257, 385, 513, 769, 1025, 1537, 2049, 3073, 4097,
     6145, 8193, 12289, 16385, 24577]
  const DISTANCEEXTRA: seq<nat> :=
    [0, 0, 0, 0, 1, 1, 2, 2, 3, 3, 4, 4, 5, 5, 6, 6, 7, 7, 8, 8, 9, 9, 10, 10, 11, 11, 12, 12, 13, 13]

  const FIRST_LENGTH_CODE_INDEX: nat := 257
  const LAST_LENGTH_CODE_INDEX: nat := 285
  const END_CODE: nat := 256

  ghost predicate Increasing(a: seq<nat>)
  {
    forall i, j :: 0 <= i < j < |a| ==> a[i] < a[j]
  }

  /** The entry of the table that a value belongs to. */
  predicate IndexFor(a: seq<nat>, i: nat, value: nat)
  {
    i < |a| && a[i] <= value && (i + 1 < |a| ==> value < a[i + 1])
  }

  lemma InOrder(a: seq<nat>, i: nat, j: nat)
    requires Increasing(a)
    ensures i <= j < |a| ==> a[i] <= a[j]
  {
  }

  lemma IndexUnique(a: seq<nat>, i: nat, j: nat, value: nat)
    requires Increasing(a) && IndexFor(a, i, value) && IndexFor(a, j, value)
    ensures i == j
  {
    InOrder(a, i + 1, j);
    InOrder(a, j + 1, i);
  }

  /** Binary search for the table entry. */
  method SearchCodeIndex(a: seq<nat>, value: nat) returns (index: nat)
    requires |a| >= 1 && Increasing(a) && a[0] <= value
    ensures IndexFor(a, index, value)
  {
    var left, right := 1, |a| - 1;
    while left <= right
      invariant 1 <= left <= right + 1 <= |a|
      invariant forall i :: 1 <= i < left ==> a[i] < value
      invariant forall i :: right < i < |a| ==> a[i] >= value
      decreases right + 1 - left
    {
      var mid := (left + right) / 2;
      if a[mid] >= value {
        right := mid - 1;
      } else {
        left := mid + 1;
      }
    }
    if left >= |a| || a[left] > value {
      left := left - 1;
    }
    index := left;
    if index + 1 < |a| && index == left && a[index] == value {
      assert a[index] < a[index + 1];
    }
  }

  lemma TablesIncreasing()
    ensures Increasing(LENGTHBASE) && Increasing(DISTANCEBASE)
    ensures |LENGTHBASE| == |LENGTHEXTRA| == 29 && |DISTANCEBASE| == |DISTANCEEXTRA| == 30
  {
    assert forall i :: 0 <= i < 28 ==> LENGTHBASE[i] < LENGTHBASE[i + 1];
    StrictSteps(LENGTHBASE);
    assert forall i :: 0 <= i < 29 ==> DISTANCEBASE[i] < DISTANCEBASE[i + 1];
    StrictSteps(DISTANCEBASE);
  }

  lemma StrictSteps(a: seq<nat>)
    requires forall i :: 0 <= i < |a| - 1 ==> a[i] < a[i + 1]
    ensures Increasing(a)
  {
    if |a| > 1 {
      StrictSteps(a[..|a| - 1]);
      forall i, j | 0 <= i < j < |a|
        ensures a[i] < a[j]
      {
        if i < |a| - 2 { assert a[..|a| - 1][i] < a[..|a| - 1][|a| - 2]; }
      }
    }
  }

  /** The last entry of the first n that is not above the value. */
  function FindIndex(a: seq<nat>, value: nat, n: nat): (i: nat)
    requires 1 <= n <= |a|
    ensures i < n
  {
    if n == 1 || a[n - 1] <= value then n - 1 else FindIndex(a, value, n - 1)
  }

  lemma {:induction false} FindIndexCorrect(a: seq<nat>, value: nat, n: nat)
    requires 1 <= n <= |a| && a[0] <= value && (n < |a| ==> value < a[n])
    ensures IndexFor(a, FindIndex(a, value, n), value)
  {
    if n > 1 && a[n - 1] > value {
      FindIndexCorrect(a, value, n - 1);
    }
  }

  function LengthIndex(length: nat): (i: nat)
    ensures i < 29
  {
    TablesIncreasing();
    FindIndex(LENGTHBASE, length, 29)
  }

  function DistanceIndex(distance: nat): (i: nat)
    ensures i < 30
  {
    TablesIncreasing();
    FindIndex(DISTANCEBASE, distance, 30)
  }

  /** How a token is written: a literal as itself, a match as length symbol, extra length,
      distance symbol and extra distance. */
  function Codes(t: Token): (cs: seq<nat>)
    requires t.Match? ==> t.length >= 3 && t.distance >= 1
  {
    match t
    case Literal(b) => [b]
    case Match(l, d) =>
      MatchIndices(l, d);
      [LengthIndex(l) + FIRST_LENGTH_CODE_INDEX, l - LENGTHBASE[LengthIndex(l)],
       DistanceIndex(d), d - DISTANCEBASE[DistanceIndex(d)]]
  }

  lemma MatchIndices(l: nat, d: nat)
    requires l >= 3 && d >= 1
    ensures IndexFor(LENGTHBASE, LengthIndex(l), l) && IndexFor(DISTANCEBASE, DistanceIndex(d), d)
    ensures |LENGTHBASE| == |LENGTHEXTRA| == 29 && |DISTANCEBASE| == |DISTANCEEXTRA| == 30
  {
    TablesIncreasing();
    FindIndexCorrect(LENGTHBASE, l, 29);
    FindIndexCorrect(DISTANCEBASE, d, 30);
  }

  lemma LengthSteps()
    ensures forall i :: 0 <= i < 28 ==> LENGTHBASE[i + 1] - LENGTHBASE[i] <= Pow2(LENGTHEXTRA[i])
    ensures |LENGTHEXTRA| == 29 && LENGTHBASE[28] == 258
  {
    assert Pow2(3) == 8;
    assert Pow2(5) == 32;
  }

  lemma DistanceSteps()
    ensures forall i :: 0 <= i < 29 ==> DISTANCEBASE[i + 1] - DISTANCEBASE[i] <= Pow2(DISTANCEEXTRA[i])
    ensures |DISTANCEEXTRA| == 30 && DISTANCEBASE[29] + Pow2(DISTANCEEXTRA[29]) > MAX_DISTANCE
  {
    assert Pow2(3) == 8;
    assert Pow2(6) == 64;
    assert Pow2(9) == 512;
    assert Pow2(12) == 4096;
    assert Pow2(13) == 8192;
  }

  /** The extra parts fit the extra bits of their symbols. */
  lemma ExtraBitsFit(l: nat, d: nat)
    requires 3 <= l <= MAX_LENGTH && 1 <= d <= MAX_DISTANCE
    ensures IndexFor(LENGTHBASE, LengthIndex(l), l) && IndexFor(DISTANCEBASE, DistanceIndex(d), d)
    ensures |LENGTHBASE| == |LENGTHEXTRA| == 29 && |DISTANCEBASE| == |DISTANCEEXTRA| == 30
    ensures l - LENGTHBASE[LengthIndex(l)] < Pow2(LENGTHEXTRA[LengthIndex(l)])
    ensures d - DISTANCEBASE[DistanceIndex(d)] < Pow2(DISTANCEEXTRA[DistanceIndex(d)])
  {
    hide LENGTHBASE, LENGTHEXTRA, DISTANCEBASE, DISTANCEEXTRA, Pow2, LengthIndex, DistanceIndex;
    MatchIndices(l, d);
    LengthSteps();
    DistanceSteps();
  }

  /** Appends the four numbers of a match. */
  method AddLengthDistance(values: seq<nat>, length: nat, distance: nat) returns (r: seq<nat>)
    requires length >= 3 && distance >= 1
    ensures r == values + Codes(Match(length, distance))
  {
    hide LENGTHBASE, DISTANCEBASE;
    TablesIncreasing();
    FirstBases();
    MatchIndices(length, distance);
    var lengthCode := SearchCodeIndex(LENGTHBASE, length);
    IndexUnique(LENGTHBASE, lengthCode, LengthIndex(length), length);
    var distCode := SearchCodeIndex(DISTANCEBASE, distance);
    IndexUnique(DISTANCEBASE, distCode, DistanceIndex(distance), distance);
    r := values + [lengthCode + FIRST_LENGTH_CODE_INDEX, length - LENGTHBASE[lengthCode],
                   distCode, distance - DISTANCEBASE[distCode]];
  }

  lemma FirstBases()
    ensures |LENGTHBASE| > 0 && LENGTHBASE[0] == 3 && |DISTANCEBASE| > 0 && DISTANCEBASE[0] == 1
  {
  }

  /** Tokens whose lengths and distances the symbol tables cover. */
  ghost predicate Coded(ts: seq<Token>)
  {
    forall i :: 0 <= i < |ts| ==> ts[i].Match? ==> 3 <= ts[i].length <= MAX_LENGTH && 1 <= ts[i].distance <= MAX_DISTANCE
  }

  function AllCodes(ts: seq<Token>): seq<nat>
    requires Coded(ts)
  {
    if |ts| == 0 then [] else AllCodes(ts[..|ts| - 1]) + Codes(ts[|ts| - 1])
  }

  lemma AllCodesSnoc(ts: seq<Token>, t: Token)
    requires Coded(ts) && Coded([t])
    ensures Coded(ts + [t]) && AllCodes(ts + [t]) == AllCodes(ts) + Codes([t][0])
  {
    assert (ts + [t])[..|ts + [t]| - 1] == ts;
  }
}
