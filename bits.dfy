/**
 * Python's bitwise operators on unbounded non-negative integers, defined
 * bit by bit from the least significant end.
 */
module Bits {
  /** Bit `k` of `n`. */
  predicate Bit(n: nat, k: nat)
  {
    if k == 0 then n % 2 == 1 else Bit(n / 2, k - 1)
  }

  /** `2 ** k`. */
  function Pow2(k: nat): (r: nat)
    ensures r > 0
  {
    if k == 0 then 1 else 2 * Pow2(k - 1)
  }

  /** `a | b`. */
  function Or(a: nat, b: nat): (r: nat)
    ensures a <= r && b <= r
    decreases a + b
  {
    if a == 0 then b
    else if b == 0 then a
    else 2 * Or(a / 2, b / 2) + (if a % 2 == 1 || b % 2 == 1 then 1 else 0)
  }

  /** `a & b`. */
  function And(a: nat, b: nat): (r: nat)
    ensures r <= a && r <= b
    decreases a + b
  {
    if a == 0 || b == 0 then 0
    else 2 * And(a / 2, b / 2) + (if a % 2 == 1 && b % 2 == 1 then 1 else 0)
  }

  lemma {:induction false} ZeroBits(k: nat)
    ensures !Bit(0, k)
  {
    if k > 0 {
      ZeroBits(k - 1);
    }
  }

  /** A bit is set in `a | b` exactly when it is set in `a` or in `b`. */
  lemma {:induction false} OrBit(a: nat, b: nat, k: nat)
    ensures Bit(Or(a, b), k) <==> Bit(a, k) || Bit(b, k)
    decreases a + b
  {
    if a == 0 {
      ZeroBits(k);
    } else if b == 0 {
      ZeroBits(k);
    } else {
      var c := if a % 2 == 1 || b % 2 == 1 then 1 else 0;
      ModUnique(Or(a, b), 2, Or(a / 2, b / 2), c);
      if k > 0 {
        OrBit(a / 2, b / 2, k - 1);
      }
    }
  }

  /** A bit is set in `a & b` exactly when it is set in both. */
  lemma {:induction false} AndBit(a: nat, b: nat, k: nat)
    ensures Bit(And(a, b), k) <==> Bit(a, k) && Bit(b, k)
    decreases a + b
  {
    if a == 0 || b == 0 {
      ZeroBits(k);
    } else {
      var c := if a % 2 == 1 && b % 2 == 1 then 1 else 0;
      ModUnique(And(a, b), 2, And(a / 2, b / 2), c);
      if k > 0 {
        AndBit(a / 2, b / 2, k - 1);
      }
    }
  }

  /** Numbers with the same bits are equal. */
  lemma {:induction false} BitsDetermine(a: nat, b: nat)
    requires forall k: nat :: Bit(a, k) == Bit(b, k)
    ensures a == b
    decreases a + b
  {
    if a != 0 || b != 0 {
      assert Bit(a, 0) == Bit(b, 0);
      forall k: nat
        ensures Bit(a / 2, k) == Bit(b / 2, k)
      {
        assert Bit(a, k + 1) == Bit(b, k + 1);
      }
      if a / 2 + b / 2 < a + b {
        BitsDetermine(a / 2, b / 2);
      }
    }
  }

  /** `|` is commutative, associative and idempotent, with 0 as its unit. */
  lemma OrLaws(a: nat, b: nat, c: nat)
    ensures Or(a, b) == Or(b, a)
    ensures Or(Or(a, b), c) == Or(a, Or(b, c))
    ensures Or(a, a) == a
    ensures Or(a, 0) == a && Or(0, a) == a
  {
    forall k: nat
      ensures Bit(Or(a, b), k) == Bit(Or(b, a), k)
    {
      OrBit(a, b, k);
      OrBit(b, a, k);
    }
    BitsDetermine(Or(a, b), Or(b, a));
    forall k: nat
      ensures Bit(Or(Or(a, b), c), k) == Bit(Or(a, Or(b, c)), k)
    {
      OrBit(Or(a, b), c, k);
      OrBit(a, b, k);
      OrBit(a, Or(b, c), k);
      OrBit(b, c, k);
    }
    BitsDetermine(Or(Or(a, b), c), Or(a, Or(b, c)));
    forall k: nat
      ensures Bit(Or(a, a), k) == Bit(a, k)
    {
      OrBit(a, a, k);
    }
    BitsDetermine(Or(a, a), a);
  }

  lemma {:induction false} MulAtLeast(d: nat, k: nat)
    requires k >= 1
    ensures d * k >= d
  {
    if k > 1 {
      MulAtLeast(d, k - 1);
      assert d * k == d * (k - 1) + d;
    }
  }

  /** Quotient and remainder are the unique `s`, `r` with `a == d * s + r` and `0 <= r < d`. */
  lemma ModUnique(a: int, d: int, s: int, r: int)
    requires d > 0 && a == d * s + r && 0 <= r < d
    ensures a / d == s && a % d == r
  {
    var q := a / d;
    assert a == d * q + a % d;
    if q > s {
      assert d * (q - s) == d * q - d * s;
      MulAtLeast(d, q - s);
    } else if q < s {
      assert d * (s - q) == d * s - d * q;
      MulAtLeast(d, s - q);
    }
  }

  /** Halving and taking the remainder by an even modulus commute. */
  lemma HalfMod(a: nat, m: nat)
    requires m > 0
    ensures a % (2 * m) == 2 * ((a / 2) % m) + a % 2
  {
    var q := a / 2;
    assert q == m * (q / m) + q % m;
    assert a == 2 * q + a % 2;
    assert a == (2 * m) * (q / m) + (2 * (q % m) + a % 2);
    ModUnique(a, 2 * m, q / m, 2 * (q % m) + a % 2);
  }

  /** Masking with `k` one bits keeps the remainder by `2 ** k`. */
  lemma {:induction false} AndLowBits(a: nat, k: nat)
    ensures And(a, Pow2(k) - 1) == a % Pow2(k)
  {
    var p := Pow2(k);
    if k == 0 {
      ModUnique(a, 1, a, 0);
    } else if a == 0 {
      ModUnique(0, p, 0, 0);
    } else {
      var m := Pow2(k - 1);
      assert p == 2 * m;
      var b := p - 1;
      ModUnique(b, 2, m - 1, 1);
      var x := And(a / 2, m - 1);
      assert And(a, b) == 2 * x + a % 2;
      AndLowBits(a / 2, k - 1);
      HalfMod(a, m);
    }
  }
}
