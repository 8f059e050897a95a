/**
 Setting and clearing one bit of a byte, as the source does it with `|` and `& ~`; and that the bits
 of a number determine it.
 */
module SingleBits {
  import opened Bits

  /** x & ~m */
  function AndNot(x: nat, m: nat): nat
  {
    if x == 0 then 0
    else (if x % 2 == 1 && m % 2 == 0 then 1 else 0) + 2 * AndNot(x / 2, m / 2)
  }

  lemma OrNothing(x: nat)
    ensures Or(x, 0) == x && Or(0, x) == x
  {
  }

  lemma {:induction false} AndNotNothing(x: nat)
    ensures AndNot(x, 0) == x
  {
    if x > 0 {
      AndNotNothing(x / 2);
    }
  }

  lemma OrStep(x: nat, m: nat)
    requires m > 0
    ensures Or(x, 2 * m) == x % 2 + 2 * Or(x / 2, m)
  {
    if x == 0 {
      OrNothing(m);
    } else {
      assert (2 * m) / 2 == m && (2 * m) % 2 == 0;
    }
  }

  lemma AndNotStep(x: nat, m: nat)
    ensures AndNot(x, 2 * m) == x % 2 + 2 * AndNot(x / 2, m)
  {
    assert (2 * m) / 2 == m && (2 * m) % 2 == 0;
  }

  lemma OrOne(x: nat)
    ensures Or(x, 1) == x - x % 2 + 1
  {
    OrNothing(x / 2);
  }

  lemma AndNotOne(x: nat)
    ensures AndNot(x, 1) == x - x % 2
  {
    AndNotNothing(x / 2);
  }

  lemma ShlPositive(k: nat)
    ensures Shl(1, k) > 0
  {
    ShlOne(k);
  }

  /** Setting bit k with | (1 << k). */
  lemma {:induction false} SetOne(x: nat, k: nat, j: nat, n: nat)
    requires x < Pow2(n) && k < n
    ensures Or(x, Shl(1, k)) < Pow2(n)
    ensures Shr(Or(x, Shl(1, k)), j) % 2 == if j == k then 1 else Shr(x, j) % 2
  {
    if k == 0 {
      OrOne(x);
    } else {
      var m := Shl(1, k - 1);
      ShlPositive(k - 1);
      OrStep(x, m);
      SetOne(x / 2, k - 1, if j > 0 then j - 1 else 0, n - 1);
      assert (x % 2 + 2 * Or(x / 2, m)) / 2 == Or(x / 2, m);
    }
  }

  /** Clearing bit k with & ~(1 << k). */
  lemma {:induction false} SetZero(x: nat, k: nat, j: nat, n: nat)
    requires x < Pow2(n) && k < n
    ensures AndNot(x, Shl(1, k)) < Pow2(n)
    ensures Shr(AndNot(x, Shl(1, k)), j) % 2 == if j == k then 0 else Shr(x, j) % 2
  {
    if k == 0 {
      AndNotOne(x);
    } else {
      var m := Shl(1, k - 1);
      AndNotStep(x, m);
      SetZero(x / 2, k - 1, if j > 0 then j - 1 else 0, n - 1);
      assert (x % 2 + 2 * AndNot(x / 2, m)) / 2 == AndNot(x / 2, m);
    }
  }

  function WithBit(x: byte, k: nat, b: bit): nat
  {
    if b == 0 then AndNot(x, Shl(1, k)) else Or(x, Shl(1, k))
  }

  lemma WithBitCorrect(x: byte, k: nat, b: bit, j: nat)
    requires k < 8
    ensures WithBit(x, k, b) < 256
    ensures Shr(WithBit(x, k, b), j) % 2 == if j == k then b else Shr(x, j) % 2
  {
    hide Shr, Shl, Or, AndNot, Pow2;
    ByteBound();
    SetOne(x, k, j, 8);
    SetZero(x, k, j, 8);
  }

  lemma ByteBound()
    ensures Pow2(8) == 256
  {
  }

  lemma BitValue(x: byte, k: nat, b: bit)
    ensures WithBit(x, k, b) == if b == 0 then AndNot(x, Shl(1, k)) else Or(x, Shl(1, k))
  {
  }

  lemma {:induction false} SameNumber(x: nat, y: nat, n: nat)
    requires x < Pow2(n) && y < Pow2(n) && forall j: nat :: j < n ==> Shr(x, j) % 2 == Shr(y, j) % 2
    ensures x == y
  {
    if n > 0 {
      assert Shr(x, 0) == x && Shr(y, 0) == y;
      forall j: nat | j < n - 1
        ensures Shr(x / 2, j) % 2 == Shr(y / 2, j) % 2
      {
        assert Shr(x, j + 1) == Shr(x / 2, j) && Shr(y, j + 1) == Shr(y / 2, j);
      }
      SameNumber(x / 2, y / 2, n - 1);
    }
  }
}
