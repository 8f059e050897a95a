/**
 The fixed trees of RFC 1951 section 3.2.6. Their lengths are those of complete prefix codes, so
 building them never fails.
 */
module FixedTrees {
  import opened Bits
  import opened Canonical
  import opened DecodeTables
  import opened HuffmanTrees
  import opened InflateSpec

  /** A run of symbols of equal length. */
  lemma {:induction false} RunKraft(lens: seq<nat>, a: nat, b: nat, l: nat, unit: nat)
    requires ValidLengths(lens) && a <= b <= |lens| && 0 < l <= MAX_BITS && unit == Pow2(MAX_BITS - l)
    requires forall i :: a <= i < b ==> lens[i] == l
    ensures KraftTo(lens, b) == KraftTo(lens, a) + (b - a) * unit
    decreases b
  {
    if a < b {
      RunKraft(lens, a, b - 1, l, unit);
      assert (b - a) * unit == (b - 1 - a) * unit + unit;
    }
  }

  lemma ShortPowers()
    ensures Pow2(MAX_BITS - 9) == 64 && Pow2(MAX_BITS - 8) == 128 && Pow2(MAX_BITS - 7) == 256
    ensures Pow2(MAX_BITS - 5) == 1024
  {
    assert Pow2(6) == 64;
    assert Pow2(8) == 256;
    assert Pow2(10) == 1024;
  }

  lemma NoKraft(lens: seq<nat>)
    requires ValidLengths(lens)
    ensures KraftTo(lens, 0) == 0
  {
  }

  lemma FixedLitLenAccepted()
    ensures ValidLengths(FixedLitLen()) && Accepted(FixedLitLen())
    ensures forall i :: 0 <= i < 288 ==> 7 <= FixedLitLen()[i] <= 9
  {
    hide KraftTo, Pow2;
    var ll := FixedLitLen();
    ShortPowers();
    NoKraft(ll);
    RunKraft(ll, 0, 144, 8, 128);
    RunKraft(ll, 144, 256, 9, 64);
    RunKraft(ll, 256, 280, 7, 256);
    RunKraft(ll, 280, 288, 8, 128);
  }

  lemma FixedDistanceAccepted()
    ensures ValidLengths(FixedDistance()) && Accepted(FixedDistance())
    ensures forall i :: 0 <= i < 32 ==> FixedDistance()[i] == 5
  {
    hide KraftTo, Pow2;
    var dl := FixedDistance();
    ShortPowers();
    NoKraft(dl);
    RunKraft(dl, 0, 32, 5, 1024);
  }

  method GenerateFixedLitLenTree(tree: HuffmanTree) returns (error: nat)
    modifies tree
    ensures error == 0 && tree.Ready(FixedLitLen())
  {
    hide Accepted, CodesFor, Decodes;
    var bitlen := new nat[288](_ => 0);
    for i := 0 to 144
      invariant forall k :: 0 <= k < i ==> bitlen[k] == 8
    {
      bitlen[i] := 8;
    }
    for i := 144 to 256
      invariant forall k :: 0 <= k < i ==> bitlen[k] == if k < 144 then 8 else 9
    {
      bitlen[i] := 9;
    }
    for i := 256 to 280
      invariant forall k :: 0 <= k < i ==> bitlen[k] == if k < 144 then 8 else if k < 256 then 9 else 7
    {
      bitlen[i] := 7;
    }
    for i := 280 to 288
      invariant forall k :: 0 <= k < i ==>
                  bitlen[k] == if k < 144 then 8 else if k < 256 then 9 else if k < 280 then 7 else 8
    {
      bitlen[i] := 8;
    }
    assert bitlen[..] == FixedLitLen();
    FixedLitLenAccepted();
    error := tree.MakeFromLengths(bitlen[..], 15);
  }

  method GenerateFixedDistanceTree(tree: HuffmanTree) returns (error: nat)
    modifies tree
    ensures error == 0 && tree.Ready(FixedDistance())
  {
    hide Accepted, CodesFor, Decodes;
    var bitlen := new nat[32](_ => 0);
    for i := 0 to 32
      invariant forall k :: 0 <= k < i ==> bitlen[k] == 5
    {
      bitlen[i] := 5;
    }
    assert bitlen[..] == FixedDistance();
    FixedDistanceAccepted();
    error := tree.MakeFromLengths(bitlen[..], 15);
  }
}
