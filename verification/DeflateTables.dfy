/**
 What the tables of the deflate format must be, without going through them (RFC 1951 sections 3.2.5 to
 3.2.7): the ranges of lengths and distances follow each other without gap or overlap, the fixed codes are
 runs of consecutive numbers, and code length code lengths fan out from symbol 8.
 */
module DeflateTables {
  import opened Bits
  import opened Canonical
  import opened DecodeSymbols
  import opened Lz77
  import opened InflateSpec

  // ---------- lengths and distances ----------

  lemma SmallPowers()
    ensures Pow2(0) == 1 && Pow2(1) == 2 && Pow2(2) == 4 && Pow2(3) == 8 && Pow2(4) == 16 && Pow2(5) == 32
    ensures Pow2(6) == 64 && Pow2(7) == 128 && Pow2(8) == 256 && Pow2(9) == 512 && Pow2(10) == 1024
    ensures Pow2(11) == 2048 && Pow2(12) == 4096 && Pow2(13) == 8192
  {
    assert Pow2(5) == 32;
    assert Pow2(10) == 1024;
  }

  /** Four symbols for each number of extra bits; each range starts where the one before ends. The last symbol
      stands for 258 alone, which the range of the symbol before it ends with too. */
  lemma LengthRanges()
    ensures |LENGTHBASE| == |LENGTHEXTRA| == 29 && LENGTHBASE[0] == 3
    ensures forall i :: 0 <= i < 28 ==> LENGTHEXTRA[i] == if i < 4 then 0 else (i - 4) / 4
    ensures forall i :: 0 <= i < 27 ==> LENGTHBASE[i + 1] == LENGTHBASE[i] + Pow2(LENGTHEXTRA[i])
    ensures LENGTHBASE[27] + Pow2(LENGTHEXTRA[27]) - 1 == 258 && LENGTHBASE[28] == 258 && LENGTHEXTRA[28] == 0
  {
    hide Pow2;
    SmallPowers();
  }

  /** Two symbols for each number of extra bits, up to 32768. */
  lemma DistanceRanges()
    ensures |DISTANCEBASE| == |DISTANCEEXTRA| == 30 && DISTANCEBASE[0] == 1
    ensures forall i :: 0 <= i < 30 ==> DISTANCEEXTRA[i] == if i < 2 then 0 else (i - 2) / 2
    ensures forall i :: 0 <= i < 29 ==> DISTANCEBASE[i + 1] == DISTANCEBASE[i] + Pow2(DISTANCEEXTRA[i])
    ensures DISTANCEBASE[29] + Pow2(DISTANCEEXTRA[29]) - 1 == 32768
  {
    hide Pow2;
    SmallPowers();
  }

  /** Three repeat symbols, 0, and then the lengths alternately from 8 up and from 7 down. */
  lemma OrderFansOut()
    ensures |CLCL_ORDER| == 19 && CLCL_ORDER[..4] == [16, 17, 18, 0]
    ensures forall j: nat :: 4 + 2 * j < 19 ==> CLCL_ORDER[4 + 2 * j] == 8 + j
    ensures forall j: nat :: 5 + 2 * j < 19 ==> CLCL_ORDER[5 + 2 * j] == 7 - j
  {
  }

  lemma LengthBound(i: nat, n: nat)
    ensures |LENGTHBASE| == |LENGTHEXTRA| == 29
    ensures i < 29 && n < Pow2(LENGTHEXTRA[i]) ==> 3 <= LENGTHBASE[i] + n <= 258
  {
    hide LENGTHBASE, LENGTHEXTRA, Pow2;
    LengthRanges();
    TablesIncreasing();
    Pow2Zero();
    if i < 29 {
      InOrder(LENGTHBASE, 0, i);
      InOrder(LENGTHBASE, i + 1, 27);
    }
  }

  lemma DistanceBound(i: nat, n: nat)
    ensures |DISTANCEBASE| == |DISTANCEEXTRA| == 30
    ensures i < 30 && n < Pow2(DISTANCEEXTRA[i]) ==> 1 <= DISTANCEBASE[i] + n <= 32768
  {
    hide DISTANCEBASE, DISTANCEEXTRA, Pow2;
    DistanceRanges();
    TablesIncreasing();
    Pow2Zero();
    if i < 30 {
      InOrder(DISTANCEBASE, 0, i);
      InOrder(DISTANCEBASE, i + 1, 29);
    }
  }

  /** A match that the format allows and that reaches back into the output. */
  ghost predicate Copied(out: seq<byte>, out': seq<byte>, length: nat, distance: nat)
  {
    3 <= length <= 258 && 1 <= distance <= 32768 && distance <= |out| && out' == Copy(out, length, distance)
  }

  /** Whatever the stream holds, one decoded symbol appends one byte or a copy of 3 to 258 bytes from 1 to 32768
      bytes back, never from in front of the output. */
  lemma DecodedStep(data: seq<byte>, ll: seq<nat>, dl: seq<nat>, pos: nat, out: seq<byte>)
    ensures var st := DecodeStep(data, ll, dl, pos, out);
            st.More? ==> (exists b: byte :: st.out == out + [b]) || exists l: nat, d: nat :: Copied(out, st.out, l, d)
  {
    hide LENGTHBASE, LENGTHEXTRA, DISTANCEBASE, DISTANCEEXTRA, Pow2, Copy, Window;
    var next := NextSymbol(ll, data, pos);
    if next.Some? && FIRST_LENGTH_CODE_INDEX <= next.value <= LAST_LENGTH_CODE_INDEX && next.value < |ll| {
      TablesIncreasing();
      var i, p := next.value - FIRST_LENGTH_CODE_INDEX, pos + ll[next.value];
      FromLEBound(Window(data, p, LENGTHEXTRA[i]));
      LengthBound(i, Number(data, p, LENGTHEXTRA[i]));
      DecodedDistance(data, dl, p + LENGTHEXTRA[i], out, LENGTHBASE[i] + Number(data, p, LENGTHEXTRA[i]));
    }
  }

  lemma DecodedDistance(data: seq<byte>, dl: seq<nat>, pos: nat, out: seq<byte>, length: nat)
    requires 3 <= length <= 258
    ensures var st := DecodeDistance(data, dl, pos, out, length);
            st.More? ==> exists d: nat :: Copied(out, st.out, length, d)
  {
    hide LENGTHBASE, LENGTHEXTRA, DISTANCEBASE, DISTANCEEXTRA, Pow2, Copy, Window;
    var next := NextSymbol(dl, data, pos);
    if next.Some? && next.value <= 29 && next.value < |dl| {
      TablesIncreasing();
      var i, p := next.value, pos + dl[next.value];
      FromLEBound(Window(data, p, DISTANCEEXTRA[i]));
      var d := DISTANCEBASE[i] + Number(data, p, DISTANCEEXTRA[i]);
      DistanceBound(i, Number(data, p, DISTANCEEXTRA[i]));
      if d <= |out| {
        assert Copied(out, Copy(out, length, d), length, d);
      }
    }
  }

  // ---------- the fixed codes ----------

  /** In a run of equal lengths every symbol counts, and no other length does. */
  lemma {:induction false} CountRun(lens: seq<nat>, b: nat, from: nat, to: nat, l: nat)
    requires from <= to <= |lens| && forall i :: from <= i < to ==> lens[i] == l
    ensures Count(lens, b, to) == Count(lens, b, from) + if b == l then to - from else 0
  {
    if from < to {
      CountRun(lens, b, from, to - 1, l);
    }
  }

  lemma CountNone(lens: seq<nat>, b: nat)
    ensures Count(lens, b, 0) == 0
  {
  }

  /** How many of the first n symbols have b bits in the fixed code. */
  lemma FixedCount(b: nat, n: nat)
    requires n <= 288
    ensures Count(FixedLitLen(), b, n)
         == if b == 8 then (if n <= 144 then n else if n <= 280 then 144 else n - 136)
            else if b == 9 then (if n <= 144 then 0 else if n <= 256 then n - 144 else 112)
            else if b == 7 then (if n <= 256 then 0 else if n <= 280 then n - 256 else 24)
            else 0
  {
    hide Count;
    var ll := FixedLitLen();
    CountNone(ll, b);
    CountRun(ll, b, 0, if n <= 144 then n else 144, 8);
    if n > 144 { CountRun(ll, b, 144, if n <= 256 then n else 256, 9); }
    if n > 256 { CountRun(ll, b, 256, if n <= 280 then n else 280, 7); }
    if n > 280 { CountRun(ll, b, 280, n, 8); }
  }

  lemma {:induction false} FixedFirstShort(b: nat)
    requires b <= 7
    ensures NextCode(FixedLitLen(), b) == 0
  {
    hide FixedLitLen;
    if b >= 2 {
      FixedFirstShort(b - 1);
      FixedCount(b - 1, 288);
    }
  }

  lemma FixedFirst()
    ensures NextCode(FixedLitLen(), 7) == 0 && NextCode(FixedLitLen(), 8) == 48 && NextCode(FixedLitLen(), 9) == 400
  {
    hide FixedLitLen;
    FixedFirstShort(7);
    FixedCount(7, 288);
    FixedCount(8, 288);
  }

  /** The fixed codes of section 3.2.6: 00110000 to 10111111 for the first 144 bytes, 110010000 to 111111111 for
      the other ones, 0000000 to 0010111 from the end code on, and 11000000 to 11000111 for the last symbols. */
  lemma FixedCode(s: nat)
    requires s < 288
    ensures FixedLitLen()[s] == (if s <= 143 then 8 else if s <= 255 then 9 else if s <= 279 then 7 else 8)
    ensures Code(FixedLitLen(), s)
         == if s <= 143 then 48 + s else if s <= 255 then 400 + (s - 144) else if s <= 279 then s - 256 else 192 + (s - 280)
  {
    hide Count, NextCode;
    FixedFirst();
    FixedCount(FixedLitLen()[s], s);
  }

  lemma {:induction false} FixedDistanceFirst(b: nat)
    requires b <= 5
    ensures NextCode(FixedDistance(), b) == 0
  {
    if b >= 2 {
      FixedDistanceFirst(b - 1);
      CountNone(FixedDistance(), b - 1);
      CountRun(FixedDistance(), b - 1, 0, 32, 5);
    }
  }

  /** The fixed code of a distance symbol is the symbol itself in five bits. */
  lemma FixedDistanceCode(d: nat)
    requires d < 32
    ensures FixedDistance()[d] == 5 && Code(FixedDistance(), d) == d
  {
    hide Count, NextCode;
    FixedDistanceFirst(5);
    CountNone(FixedDistance(), 5);
    CountRun(FixedDistance(), 5, 0, d, 5);
  }
}
