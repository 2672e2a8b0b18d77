/** Natural numbers as bit strings: the C operators `|`, `&`, `<<` and `>>`, and the one view in which
    every later proof is carried out, namely which bits of a number are set. */
module Bits {
  function Pow2(n: nat): (r: nat)
    ensures r > 0
  {
    if n == 0 then 1 else 2 * Pow2(n - 1)
  }

  /** Bit i of x, bit 0 being the least significant. */
  predicate Bit(x: nat, i: nat) {
    if i == 0 then x % 2 == 1 else Bit(x / 2, i - 1)
  }

  function Or(x: nat, y: nat): nat
    decreases x + y
  {
    if x == 0 && y == 0 then 0
    else 2 * Or(x / 2, y / 2) + if x % 2 == 1 || y % 2 == 1 then 1 else 0
  }

  function And(x: nat, y: nat): nat
    decreases x + y
  {
    if x == 0 && y == 0 then 0
    else 2 * And(x / 2, y / 2) + if x % 2 == 1 && y % 2 == 1 then 1 else 0
  }

  function Shl(x: nat, k: nat): nat {
    if k == 0 then x else 2 * Shl(x, k - 1)
  }

  function Shr(x: nat, k: nat): nat
    decreases k
  {
    if k == 0 then x else Shr(x / 2, k - 1)
  }

  /** x with bit i made equal to b. */
  function WithBit(x: nat, i: nat, b: bool): nat {
    if i == 0 then 2 * (x / 2) + (if b then 1 else 0) else 2 * WithBit(x / 2, i - 1, b) + x % 2
  }

  lemma {:induction false} BitZero(i: nat)
    ensures !Bit(0, i)
  {
    if i > 0 { BitZero(i - 1); }
  }

  lemma {:induction false} BitOr(x: nat, y: nat, i: nat)
    ensures Bit(Or(x, y), i) <==> Bit(x, i) || Bit(y, i)
  {
    if x == 0 && y == 0 {
      BitZero(i);
    } else if i > 0 {
      BitOr(x / 2, y / 2, i - 1);
    }
  }

  lemma {:induction false} BitAnd(x: nat, y: nat, i: nat)
    ensures Bit(And(x, y), i) <==> Bit(x, i) && Bit(y, i)
  {
    if x == 0 && y == 0 {
      BitZero(i);
    } else if i > 0 {
      BitAnd(x / 2, y / 2, i - 1);
    }
  }

  lemma {:induction false} BitShl(x: nat, k: nat, i: nat)
    ensures Bit(Shl(x, k), i) <==> k <= i && Bit(x, i - k)
    decreases k
  {
    if k > 0 && i > 0 { BitShl(x, k - 1, i - 1); }
  }

  lemma {:induction false} BitShr(x: nat, k: nat, i: nat)
    ensures Bit(Shr(x, k), i) <==> Bit(x, i + k)
    decreases k
  {
    if k > 0 { BitShr(x / 2, k - 1, i); }
  }

  /** Truncation to k bits, halved: the step every induction on a truncated number needs. */
  lemma {:induction false} TruncateHalves(x: nat, k: nat)
    requires k > 0
    ensures x % Pow2(k) % 2 == x % 2
    ensures x % Pow2(k) / 2 == (x / 2) % Pow2(k - 1)
  {
    var p, q := Pow2(k - 1), x / 2;
    var d, r := q / p, q % p;
    assert q == p * d + r;
    assert x == (2 * p) * d + (2 * r + x % 2);
    ModUnique(x, 2 * p, d, 2 * r + x % 2);
  }

  lemma {:induction false} ModUnique(x: nat, m: nat, d: nat, r: nat)
    requires r < m && x == m * d + r
    ensures x % m == r && x / m == d
  {
    var e, s := x / m, x % m;
    assert x == m * e + s;
    if d < e {
      Multiples(m, d, e);
    } else if e < d {
      Multiples(m, e, d);
    }
  }

  lemma {:induction false} Multiples(m: nat, d: nat, e: nat)
    requires d < e
    ensures m * d + m <= m * e
  {
    assert m * e == m * (d + 1) + m * (e - d - 1);
    assert m * (d + 1) == m * d + m;
    assert m * (e - d - 1) >= 0;
  }

  lemma {:induction false} BitTruncate(x: nat, k: nat, i: nat)
    ensures Bit(x % Pow2(k), i) <==> i < k && Bit(x, i)
    decreases k
  {
    if k == 0 {
      BitZero(i);
    } else {
      TruncateHalves(x, k);
      if i > 0 { BitTruncate(x / 2, k - 1, i - 1); }
    }
  }

  /** A mask of k ones keeps bits 0..k-1. */
  lemma {:induction false} BitMask(k: nat, i: nat)
    ensures Bit(Pow2(k) - 1, i) <==> i < k
    decreases k
  {
    if k == 0 {
      BitZero(i);
    } else {
      assert (Pow2(k) - 1) / 2 == Pow2(k - 1) - 1;
      if i > 0 { BitMask(k - 1, i - 1); }
    }
  }

  /** Numbers with the same bits are the same number. */
  lemma {:induction false} SameBits(x: nat, y: nat)
    requires forall i: nat :: Bit(x, i) <==> Bit(y, i)
    ensures x == y
    decreases x + y
  {
    if x == 0 && y == 0 {
    } else {
      assert Bit(x, 0) <==> Bit(y, 0);
      forall i: nat ensures Bit(x / 2, i) <==> Bit(y / 2, i) {
        assert Bit(x, i + 1) <==> Bit(y, i + 1);
      }
      SameBits(x / 2, y / 2);
    }
  }

  /** A number is below 2^k exactly when no bit from k upwards is set. */
  lemma {:induction false} SmallHasNoHighBits(x: nat, k: nat, i: nat)
    requires x < Pow2(k) && k <= i
    ensures !Bit(x, i)
  {
    ModUnique(x, Pow2(k), 0, x);
    BitTruncate(x, k, i);
  }

  lemma {:induction false} NoHighBitsIsSmall(x: nat, k: nat)
    requires forall i: nat :: k <= i ==> !Bit(x, i)
    ensures x < Pow2(k)
  {
    forall i: nat ensures Bit(x % Pow2(k), i) <==> Bit(x, i) {
      BitTruncate(x, k, i);
    }
    SameBits(x % Pow2(k), x);
    assert x % Pow2(k) < Pow2(k);
  }

  lemma {:induction false} BitWithBit(x: nat, i: nat, b: bool, m: nat)
    ensures Bit(WithBit(x, i, b), m) <==> if m == i then b else Bit(x, m)
    decreases i
  {
    if i > 0 && m > 0 { BitWithBit(x / 2, i - 1, b, m - 1); }
  }

  lemma {:induction false} WithBitBound(x: nat, i: nat, b: bool, k: nat)
    requires x < Pow2(k) && i < k
    ensures WithBit(x, i, b) < Pow2(k)
  {
    forall m: nat | k <= m ensures !Bit(WithBit(x, i, b), m) {
      BitWithBit(x, i, b, m);
      SmallHasNoHighBits(x, k, m);
    }
    NoHighBitsIsSmall(WithBit(x, i, b), k);
  }

  lemma {:induction false} SmallModulo(v: nat, m: nat)
    requires v < m
    ensures v % m == v
  {
  }
}
