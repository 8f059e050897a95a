/**
 Adler-32 (RFC 1950 section 2.2). The standard reduces both sums after every byte; the code does
 so only every 5552 bytes, in 32-bit arithmetic. Both give the same checksum.
 */
module Adler32 {
  import opened Bits

  /** unsigned int: every operation on it is proved not to wrap. */
  newtype uint32 = x: int | 0 <= x < 0x1_0000_0000

  const BASE: nat := 65521
  const NMAX: nat := 5552

  datatype Sums = Sums(s1: nat, s2: nat)

  /** The definition of the standard: both sums are reduced after every byte. */
  function PerByte(start: Sums, data: seq<byte>): Sums
  {
    if |data| == 0 then start
    else
      var before := PerByte(start, data[..|data| - 1]);
      var s1 := (before.s1 + data[|data| - 1]) % BASE;
      Sums(s1, (before.s2 + s1) % BASE)
  }

  function Checksum(s: Sums): nat
  {
    s.s2 * 65536 + s.s1
  }

  /** The Adler-32 value of some bytes. */
  function Adler(data: seq<byte>): nat
  {
    Checksum(PerByte(Sums(1, 0), data))
  }

  /** The checksum of a concatenation continues that of its first part. */
  lemma {:induction false} PerByteConcat(start: Sums, a: seq<byte>, b: seq<byte>)
    ensures PerByte(start, a + b) == PerByte(PerByte(start, a), b)
  {
    if |b| == 0 {
      assert a + b == a;
    } else {
      PerByteConcat(start, a, b[..|b| - 1]);
      assert (a + b)[..|a + b| - 1] == a + b[..|b| - 1];
    }
  }

  lemma PerByteReduced(start: Sums, data: seq<byte>)
    requires |data| > 0
    ensures var r := PerByte(start, data); r.s1 < BASE && r.s2 < BASE
  {
  }

  lemma {:induction false} AdlerReduced(data: seq<byte>)
    ensures var r := PerByte(Sums(1, 0), data); r.s1 < BASE && r.s2 < BASE
    ensures Adler(data) < 0x1_0000_0000
  {
    if |data| > 0 {
      PerByteReduced(Sums(1, 0), data);
    }
  }

  // ---------- the sums as the standard describes them ----------

  function Sum(data: seq<byte>): nat
  {
    if |data| == 0 then 0 else Sum(data[..|data| - 1]) + data[|data| - 1]
  }

  /** The sum of 1 + Sum over all non-empty prefixes. */
  function SumOfSums(data: seq<byte>): nat
  {
    if |data| == 0 then 0 else SumOfSums(data[..|data| - 1]) + (1 + Sum(data))
  }

  lemma AddReduced(a: nat, b: nat, c: nat)
    requires a == b % BASE
    ensures (a + c) % BASE == (b + c) % BASE
  {
  }

  /** s1 is one plus the sum of all bytes, s2 the sum of all s1 values, modulo 65521. */
  lemma {:induction false} AdlerIsSums(data: seq<byte>)
    ensures PerByte(Sums(1, 0), data) == Sums((1 + Sum(data)) % BASE, SumOfSums(data) % BASE)
  {
    if |data| > 0 {
      var rest := data[..|data| - 1];
      AdlerIsSums(rest);
      ReducedStep(Sum(rest), SumOfSums(rest), data[|data| - 1]);
    }
  }

  /** Reducing before or after adding one byte. */
  lemma ReducedStep(sum: nat, sums: nat, b: nat)
    ensures ((1 + sum) % BASE + b) % BASE == (1 + (sum + b)) % BASE
    ensures (sums % BASE + (1 + (sum + b)) % BASE) % BASE == (sums + (1 + (sum + b))) % BASE
  {
    hide BASE;
    BasePositive();
    AddReduced((1 + sum) % BASE, 1 + sum, b);
    AddReduced((1 + (sum + b)) % BASE, 1 + (sum + b), sums % BASE);
    AddReduced(sums % BASE, sums, 1 + (sum + b));
  }

  lemma BasePositive()
    ensures BASE > 0
  {
  }

  lemma {:induction false} SumUpdated(data: seq<byte>, i: nat, b: byte)
    requires i < |data|
    ensures Sum(data[i := b]) == Sum(data) - data[i] + b
  {
    var n := |data| - 1;
    if i < n {
      SumUpdated(data[..n], i, b);
      assert data[i := b][..n] == data[..n][i := b];
    } else {
      assert data[i := b][..n] == data[..n];
    }
  }

  /** Changing any one byte changes the checksum. */
  lemma OneByteDetected(data: seq<byte>, i: nat, b: byte)
    requires i < |data| && b != data[i]
    ensures Adler(data[i := b]) != Adler(data)
  {
    hide PerByte, Sum, SumOfSums, Checksum;
    AdlerIsSums(data);
    AdlerIsSums(data[i := b]);
    SumUpdated(data, i, b);
    var x, y := 1 + Sum(data), 1 + Sum(data[i := b]);
    Apart(x, y);
    LowHalf(Sums(x % BASE, SumOfSums(data) % BASE));
    LowHalf(Sums(y % BASE, SumOfSums(data[i := b]) % BASE));
  }

  lemma LowHalf(s: Sums)
    requires s.s1 < 65536
    ensures Checksum(s) % 65536 == s.s1
  {
  }

  lemma Apart(x: nat, y: nat)
    requires x != y && -256 < x - y < 256
    ensures x % BASE != y % BASE
  {
    assert x == BASE * (x / BASE) + x % BASE;
    assert y == BASE * (y / BASE) + y % BASE;
  }

  // ---------- known values ----------

  lemma WikipediaSum()
    ensures Checksum(Sums(920, 4582)) == 0x11E60398
  {
  }

  /** The nine letters of "Wikipedia". */
  lemma KnownChecksum()
    ensures Adler([87, 105, 107, 105, 112, 101, 100, 105, 97]) == 0x11E60398
  {
    var d: seq<byte> := [87, 105, 107, 105, 112, 101, 100, 105, 97];
    hide Checksum, PerByte;
    AddOne(d, 0, Sums(1, 0));
    AddOne(d, 1, Sums(88, 88));
    AddOne(d, 2, Sums(193, 281));
    AddOne(d, 3, Sums(300, 581));
    AddOne(d, 4, Sums(405, 986));
    AddOne(d, 5, Sums(517, 1503));
    AddOne(d, 6, Sums(618, 2121));
    AddOne(d, 7, Sums(718, 2839));
    AddOne(d, 8, Sums(823, 3662));
    assert d[..9] == d;
    WikipediaSum();
  }

  /** One more byte, as long as nothing is reduced. */
  lemma AddOne(d: seq<byte>, k: nat, s: Sums)
    requires k < |d| && s.s1 + d[k] < BASE && s.s2 + s.s1 + d[k] < BASE
    requires k == 0 || PerByte(Sums(1, 0), d[..k]) == s
    requires k == 0 ==> s == Sums(1, 0)
    ensures PerByte(Sums(1, 0), d[..k + 1]) == Sums(s.s1 + d[k], s.s2 + s.s1 + d[k])
  {
    assert d[..k + 1][..k] == d[..k];
  }

  lemma {:induction false} SumOfHigh(n: nat)
    ensures Sum(seq<byte>(n, i => 255)) == 255 * n
  {
    if n > 0 {
      SumOfHigh(n - 1);
      assert seq<byte>(n, i => 255)[..n - 1] == seq<byte>(n - 1, i => 255);
    }
  }

  /** 258 bytes of 255 are the first such run whose sum, 65791, is reduced, to 270. */
  lemma ReducedChecksum()
    ensures PerByte(Sums(1, 0), seq<byte>(256, i => 255)).s1 == 65281
    ensures PerByte(Sums(1, 0), seq<byte>(258, i => 255)).s1 == 270
  {
    hide Sum, PerByte;
    AdlerIsSums(seq<byte>(256, i => 255));
    AdlerIsSums(seq<byte>(258, i => 255));
    SumOfHigh(256);
    SumOfHigh(258);
  }

  // ---------- deferred reduction ----------

  /** 1 + 2 + .. + n */
  function Triangle(n: nat): nat
  {
    if n == 0 then 0 else Triangle(n - 1) + n
  }

  lemma {:induction false} TriangleMono(n: nat, m: nat)
    requires n <= m
    ensures Triangle(n) <= Triangle(m)
  {
    if n < m {
      TriangleMono(n, m - 1);
    }
  }

  lemma {:induction false} TriangleFormula(n: nat)
    ensures 2 * Triangle(n) == n * n + n
  {
    if n > 0 {
      TriangleFormula(n - 1);
    }
  }

  /** The sums after i unreduced bytes stay within 32 bits up to i = 5552. */
  lemma SumsFit(i: nat)
    requires i <= NMAX
    ensures 65535 * (i + 1) + 255 * Triangle(i) < 0x1_0000_0000
  {
    hide Triangle;
    TriangleMono(i, NMAX);
    TriangleFormula(NMAX);
  }

  /** One byte added without reducing. */
  lemma DeferByte(start: Sums, data: seq<byte>, s1: nat, s2: nat, b: byte)
    requires var r := PerByte(start, data); s1 % BASE == r.s1 % BASE && s2 % BASE == r.s2 % BASE
    ensures var r := PerByte(start, data + [b]);
            (s1 + b) % BASE == r.s1 && (s2 + (s1 + b)) % BASE == r.s2
  {
    assert (data + [b])[..|data|] == data;
    var r := PerByte(start, data);
    Congruent(s1, r.s1, b, b);
    Congruent(s2, r.s2, s1 + b, (r.s1 + b) % BASE);
  }

  lemma Congruent(a: nat, b: nat, c: nat, d: nat)
    requires a % BASE == b % BASE && c % BASE == d % BASE
    ensures (a + c) % BASE == (b + d) % BASE
  {
  }

  /** Adds up to 5552 bytes without reducing. */
  method AddBytes(t1: uint32, t2: uint32, data: seq<byte>, ghost start: Sums, ghost before: seq<byte>)
    returns (s1: uint32, s2: uint32)
    requires t1 <= 65535 && t2 <= 65535 && |data| <= NMAX
    requires var r := PerByte(start, before); t1 as nat % BASE == r.s1 % BASE && t2 as nat % BASE == r.s2 % BASE
    ensures var r := PerByte(start, before + data); s1 as nat % BASE == r.s1 % BASE && s2 as nat % BASE == r.s2 % BASE
  {
    hide PerByte, Triangle;
    s1, s2 := t1, t2;
    NothingAdded(before, data);
    var i := 0;
    while i != |data|
      invariant i <= |data|
      invariant s1 as nat <= 65535 + 255 * i && s2 as nat <= 65535 * (i + 1) + 255 * Triangle(i)
      invariant var r := PerByte(start, before + data[..i]);
                s1 as nat % BASE == r.s1 % BASE && s2 as nat % BASE == r.s2 % BASE
    {
      SumsFit(i + 1);
      TriangleStep(i);
      DeferByte(start, before + data[..i], s1 as nat, s2 as nat, data[i]);
      NextPrefix(before, data, i);
      s1 := s1 + data[i] as uint32;
      s2 := s2 + s1;
      i := i + 1;
    }
    assert data[..i] == data;
  }

  lemma TriangleStep(i: nat)
    ensures Triangle(i + 1) == Triangle(i) + (i + 1) && Triangle(0) == 0
  {
  }

  lemma NothingAdded(before: seq<byte>, data: seq<byte>)
    ensures before + data[..0] == before && Triangle(0) == 0
  {
  }

  lemma NextPrefix(before: seq<byte>, data: seq<byte>, i: nat)
    requires i < |data|
    ensures before + data[..i + 1] == (before + data[..i]) + [data[i]]
  {
  }

  /** Continues a checksum over more bytes. */
  method UpdateAdler32(adler: uint32, data: seq<byte>) returns (r: uint32)
    ensures r as nat == Checksum(PerByte(Sums(adler as nat % 65536, adler as nat / 65536), data))
  {
    hide PerByte;
    var s1, s2 := adler % 65536, (adler / 65536) % 65536;
    ghost var start := Sums(s1 as nat, s2 as nat);
    var pos := 0;
    NoBytes(start, data);
    while pos != |data|
      invariant pos <= |data| && s1 <= 65535 && s2 <= 65535
      invariant PerByte(start, data[..pos]) == Sums(s1 as nat, s2 as nat)
    {
      var amount := if |data| - pos > NMAX then NMAX else |data| - pos;
      ReducedSums(start, data, pos, amount);
      s1, s2 := AddBytes(s1, s2, data[pos..pos + amount], start, data[..pos]);
      s1 := s1 % 65521;
      s2 := s2 % 65521;
      pos := pos + amount;
    }
    assert data[..pos] == data;
    r := s2 * 65536 + s1;
  }

  lemma NoBytes(start: Sums, data: seq<byte>)
    ensures PerByte(start, data[..0]) == start
  {
  }

  lemma ReducedSums(start: Sums, data: seq<byte>, pos: nat, amount: nat)
    requires pos + amount <= |data| && amount > 0
    ensures data[..pos] + data[pos..pos + amount] == data[..pos + amount]
    ensures var r := PerByte(start, data[..pos + amount]); r.s1 < BASE && r.s2 < BASE
  {
    PerByteReduced(start, data[..pos + amount]);
  }

  method ComputeAdler32(data: seq<byte>) returns (r: uint32)
    ensures r as nat == Adler(data)
  {
    hide PerByte, Checksum;
    StartSums();
    r := UpdateAdler32(1, data);
  }

  lemma StartSums()
    ensures (1 as uint32) as nat % 65536 == 1 && (1 as uint32) as nat / 65536 == 0
  {
  }
}
