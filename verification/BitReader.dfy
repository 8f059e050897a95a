/**
 The bit reader: a byte buffer, a bit position and a 32-bit look-ahead buffer.

 What the look-ahead buffer holds is described by `avail`, the number of its low bits that are
 the next bits of the stream (zero past the end of the data).
 */
module BitReaders {
  import opened Bits

  /** The little-endian number in the m bytes at start. */
  function WordLE(data: seq<byte>, start: nat, m: nat): nat
  {
    if m == 0 then 0 else WordLE(data, start, m - 1) + Shl(ByteAt(data, start + m - 1), 8 * (m - 1))
  }

  lemma ByteShifted(lo: nat, hi: byte, n: nat)
    requires lo < Pow2(n)
    ensures lo + Shl(hi, n) < Pow2(n + 8)
  {
    ShlMono(hi, 256, n);
    ShlPow2(8, n);
    assert Pow2(8) == 256;
  }

  /** k more bits put above n bits of the stream. */
  lemma ExtendWindow(data: seq<byte>, pos: nat, lo: nat, hi: nat, n: nat, k: nat)
    requires lo < Pow2(n)
    requires ToLE(lo, n) == Window(data, pos, n) && ToLE(hi, k) == Window(data, pos + n, k)
    ensures ToLE(lo + Shl(hi, n), n + k) == Window(data, pos, n + k)
  {
    hide Shl, Pow2, ToLE, Window;
    ToLEJoin(lo, hi, n, k);
    WindowSplit(data, pos, n, k);
  }

  lemma {:induction false} WordBits(data: seq<byte>, start: nat, m: nat)
    ensures WordLE(data, start, m) < Pow2(8 * m)
    ensures ToLE(WordLE(data, start, m), 8 * m) == Window(data, 8 * start, 8 * m)
  {
    hide Pow2, ToLE, Shl, Window, ByteAt;
    if m == 0 {
      Pow2Zero();
    } else {
      var n, i := 8 * (m - 1), start + m - 1;
      var lo, hi := WordLE(data, start, m - 1), ByteAt(data, i);
      WordBits(data, start, m - 1);
      assert n + 8 == 8 * m && 8 * start + n == 8 * i;
      ByteShifted(lo, hi, n);
      WindowByte(data, i);
      ExtendWindow(data, 8 * start, lo, hi, n, 8);
    }
  }

  /** Dropping the bits before the bit position. */
  lemma ShiftedWord(data: seq<byte>, bp: nat, m: nat)
    requires m > 0
    ensures ToLE(Shr(WordLE(data, bp / 8, m), bp % 8), 8 * m - bp % 8) == Window(data, bp, 8 * m - bp % 8)
  {
    var k, n, v := bp % 8, 8 * m - bp % 8, WordLE(data, bp / 8, m);
    WordBits(data, bp / 8, m);
    SplitWindow(data, 8 * (bp / 8), v, k, n);
  }

  /** A look-ahead that holds k + n bits of the stream, split after k bits. */
  lemma SplitWindow(data: seq<byte>, pos: nat, v: nat, k: nat, n: nat)
    requires ToLE(v, k + n) == Window(data, pos, k + n)
    ensures ToLE(v, k) == Window(data, pos, k)
    ensures ToLE(Shr(v, k), n) == Window(data, pos + k, n)
  {
    ToLESplit(v, k, n);
    WindowSplit(data, pos, k, n);
    CutAt(ToLE(v, k + n), ToLE(v, k), ToLE(Shr(v, k), n), Window(data, pos, k), Window(data, pos + k, n));
  }

  /** Or-ing in the next byte of the word. */
  lemma OrByte(data: seq<byte>, start: nat, m: nat)
    ensures Or(WordLE(data, start, m), Shl(ByteAt(data, start + m), 8 * m)) == WordLE(data, start, m + 1)
  {
    WordBits(data, start, m);
    OrDisjoint(WordLE(data, start, m), ByteAt(data, start + m), 8 * m);
  }

  lemma WordOne(data: seq<byte>, start: nat)
    ensures WordLE(data, start, 1) == ByteAt(data, start)
  {
    assert WordLE(data, start, 0) == 0;
  }

  lemma WordPastEnd(data: seq<byte>, start: nat, m: nat)
    requires start + m >= |data|
    ensures WordLE(data, start, m + 1) == WordLE(data, start, m)
  {
    ShlZero(8 * m);
  }

  /** Shifting a byte to the top of a 32-bit word keeps its low k bits. */
  lemma {:induction false} LowShl(x: nat, s: nat, k: nat)
    ensures Low(Shl(x, s), s + k) == Shl(Low(x, k), s)
  {
    if s > 0 {
      LowShl(x, s - 1, k);
    }
  }

  /** Or-ing k more bits above n bits of the stream. */
  lemma JoinWindow(data: seq<byte>, pos: nat, lo: nat, hi: nat, n: nat, k: nat)
    requires lo < Pow2(n)
    requires ToLE(lo, n) == Window(data, pos, n) && ToLE(hi, k) == Window(data, pos + n, k)
    ensures ToLE(Or(lo, Shl(hi, n)), n + k) == Window(data, pos, n + k)
  {
    OrDisjoint(lo, hi, n);
    ExtendWindow(data, pos, lo, hi, n, k);
  }

  /** The first k bits of a byte, masked. */
  lemma LowByteBits(data: seq<byte>, i: nat, k: nat)
    requires k < 8
    ensures ToLE(Low(ByteAt(data, i), k), k) == Window(data, 8 * i, k)
  {
    WindowByte(data, i);
    SplitWindow(data, 8 * i, ByteAt(data, i), k, 8 - k);
    ToLELow(ByteAt(data, i), k);
  }

  lemma TopBits(b: nat, k: nat)
    requires k < 8
    ensures Low(Shl(Shl(b, 24), 8 - k), 32) == Shl(Low(b, k), 32 - k)
  {
    ShlShl(b, 24, 8 - k);
    LowShl(b, 32 - k, k);
  }

  /** The fifth byte of the 32-bit look-ahead fills the bits that the shift by bp % 8 left free. */
  lemma FifthByte(data: seq<byte>, bp: nat, n: nat, k: nat)
    requires k == bp % 8 && n + k == 32
    ensures var low := Shr(WordLE(data, bp / 8, 4), k);
            var top := Low(Shl(Shl(ByteAt(data, bp / 8 + 4), 24), 8 - k), 32);
            ToLE(Or(low, top), 32) == Window(data, bp, 32)
  {
    var low := Shr(WordLE(data, bp / 8, 4), k);
    assert low < Pow2(n) by {
      WordBits(data, bp / 8, 4);
      ShrBound(WordLE(data, bp / 8, 4), k, n);
    }
    ShiftedWord(data, bp, 4);
    assert bp + n == 8 * (bp / 8 + 4);
    LowByteBits(data, bp / 8 + 4, k);
    TopBits(ByteAt(data, bp / 8 + 4), k);
    JoinWindow(data, bp, low, Low(ByteAt(data, bp / 8 + 4), k), n, k);
  }

  /** The sizes that make the bit count overflow a 32-bit size_t are refused with error 105. */
  const SIZE_LIMIT: nat := 0x1_0000_0000

  predicate SizeFits(size: nat)
  {
    8 * size + 64 < SIZE_LIMIT
  }

  class BitReader {
    const data: seq<byte>
    const bitsize: nat
    var bp: nat
    var buffer: nat
    ghost var avail: nat

    ghost predicate Valid()
      reads this
    {
      && bitsize == 8 * |data|
      && ToLE(buffer, avail) == Window(data, bp, avail)
    }

    constructor (data: seq<byte>)
      ensures Valid() && this.data == data && bp == 0
    {
      this.data := data;
      bitsize := 8 * |data|;
      bp, buffer, avail := 0, 0, 0;
    }

    /** Makes 9 bits available; says whether nbits of them are inside the data. */
    method EnsureBits9(nbits: nat) returns (ok: bool)
      requires Valid() && nbits <= 9
      modifies this
      ensures Valid() && bp == old(bp) && avail >= 9
      ensures ok <==> bp + nbits <= bitsize
    {
      var start := bp / 8;
      WordOne(data, start);
      if start + 1 < |data| {
        buffer := Or(data[start], Shl(data[start + 1], 8));
        ok := true;
        OrByte(data, start, 1);
      } else {
        buffer := 0;
        if start < |data| { buffer := Or(buffer, data[start]); }
        ok := bp + nbits <= bitsize;
        WordPastEnd(data, start, 1);
      }
      buffer := Shr(buffer, bp % 8);
      avail := 16 - bp % 8;
      ShiftedWord(data, bp, 2);
    }

    method EnsureBits17(nbits: nat) returns (ok: bool)
      requires Valid() && nbits <= 17
      modifies this
      ensures Valid() && bp == old(bp) && avail >= 17
      ensures ok <==> bp + nbits <= bitsize
    {
      var start := bp / 8;
      WordOne(data, start);
      OrByte(data, start, 1);
      if start + 2 < |data| {
        buffer := Or(Or(data[start], Shl(data[start + 1], 8)), Shl(data[start + 2], 16));
        ok := true;
        OrByte(data, start, 2);
      } else {
        buffer := 0;
        if start < |data| { buffer := Or(buffer, data[start]); }
        assert buffer == WordLE(data, start, 1);
        if start + 1 < |data| { buffer := Or(buffer, Shl(data[start + 1], 8)); } else { WordPastEnd(data, start, 1); }
        ok := bp + nbits <= bitsize;
        WordPastEnd(data, start, 2);
      }
      buffer := Shr(buffer, bp % 8);
      avail := 24 - bp % 8;
      ShiftedWord(data, bp, 3);
    }

    /** The bytes start .. start + m - 1 of the buffer, or-ed together as far as they exist. */
    method LoadBytes(start: nat, m: nat) returns (w: nat)
      requires 1 <= m <= 4
      ensures w == WordLE(data, start, m)
    {
      w := 0;
      if start < |data| { w := Or(w, data[start]); }
      WordOne(data, start);
      var i := 1;
      while i < m
        invariant 1 <= i <= m && w == WordLE(data, start, i)
      {
        if start + i < |data| {
          w := Or(w, Shl(data[start + i], 8 * i));
          OrByte(data, start, i);
        } else {
          WordPastEnd(data, start, i);
        }
        i := i + 1;
      }
    }

    method EnsureBits25(nbits: nat) returns (ok: bool)
      requires Valid() && nbits <= 25
      modifies this
      ensures Valid() && bp == old(bp) && avail >= 25
      ensures ok <==> bp + nbits <= bitsize
    {
      var start := bp / 8;
      if start + 3 < |data| {
        buffer := LoadBytes(start, 4);
        ok := true;
      } else {
        buffer := LoadBytes(start, 3);
        ok := bp + nbits <= bitsize;
        WordPastEnd(data, start, 3);
      }
      buffer := Shr(buffer, bp % 8);
      avail := 32 - bp % 8;
      ShiftedWord(data, bp, 4);
    }

    method EnsureBits32(nbits: nat) returns (ok: bool)
      requires Valid() && nbits <= 32
      modifies this
      ensures Valid() && bp == old(bp) && avail >= 32
      ensures ok <==> bp + nbits <= bitsize
    {
      var start := bp / 8;
      buffer := LoadBytes(start, 4);
      buffer := Shr(buffer, bp % 8);
      FifthByte(data, bp, 32 - bp % 8, bp % 8);
      if start + 4 < |data| {
        buffer := Or(buffer, Low(Shl(Shl(data[start + 4], 24), 8 - bp % 8), 32));
        ok := true;
      } else {
        ok := bp + nbits <= bitsize;
        NoFifthByte(bp % 8);
      }
      avail := 32;
    }

    lemma NoFifthByte(k: nat)
      requires k < 8
      ensures Low(Shl(Shl(0, 24), 8 - k), 32) == 0
    {
      ShlZero(24);
      ShlZero(8 - k);
      ShlZero(32);
    }

    /** The next n bits as a number, without advancing. */
    function PeekBits(n: nat): (r: nat)
      requires Valid() && n <= avail
      reads this
      ensures r == FromLE(Window(data, bp, n)) && r < Pow2(n)
    {
      SplitWindow(data, bp, buffer, n, avail - n);
      FromToLE(buffer, n);
      LowBound(buffer, n);
      Low(buffer, n)
    }

    method AdvanceBits(n: nat)
      requires Valid() && n <= avail
      modifies this
      ensures Valid() && bp == old(bp) + n && avail == old(avail) - n
    {
      SplitWindow(data, bp, buffer, n, avail - n);
      buffer := Shr(buffer, n);
      bp := bp + n;
      avail := avail - n;
    }

    /** Moves to a bit position; nothing is looked ahead there yet. */
    method JumpTo(pos: nat)
      requires Valid()
      modifies this
      ensures Valid() && bp == pos
    {
      bp := pos;
      avail := 0;
    }

    method ReadBits(n: nat) returns (r: nat)
      requires Valid() && n <= avail
      modifies this
      ensures Valid() && bp == old(bp) + n && avail == old(avail) - n
      ensures r == FromLE(Window(data, old(bp), n)) && r < Pow2(n)
    {
      r := PeekBits(n);
      AdvanceBits(n);
    }
  }
}
