/**
 Shifts, masks and bitwise or on unbounded integers, as Python has them.
 */
module Bits {

  function Pow2(n: nat): (p: nat)
    ensures p >= 1
  {
    if n == 0 then 1 else 2 * Pow2(n - 1)
  }

  /** x << k */
  function Shl(x: nat, k: nat): nat { x * Pow2(k) }

  /** x >> k */
  function Shr(x: nat, k: nat): nat { Div(x, Pow2(k)) }

  function Div(x: nat, d: nat): nat
    requires d > 0
  {
    x / d
  }

  /** x & ((1 << w) - 1), for negative x as well */
  function Mask(x: int, w: nat): (r: nat)
    ensures r < Pow2(w)
  {
    x % Pow2(w)
  }

  /** a | b, bit by bit */
  function Or(a: nat, b: nat): nat {
    if a == 0 && b == 0 then 0
    else 2 * Or(a / 2, b / 2) + if a % 2 == 1 || b % 2 == 1 then 1 else 0
  }

  lemma {:induction false} Pow2Adds(m: nat, n: nat)
    ensures Pow2(m + n) == Pow2(m) * Pow2(n)
  {
    if m == 0 {
    } else {
      Pow2Adds(m - 1, n);
      assert Pow2(m + n) == 2 * Pow2(m - 1 + n);
    }
  }

  lemma {:induction false} Pow2Grows(m: nat, n: nat)
    requires m <= n
    ensures Pow2(m) <= Pow2(n)
  {
    if m < n { Pow2Grows(m, n - 1); }
  }

  /** Bits that do not overlap add up. */
  lemma {:induction false} OrDisjoint(x: nat, k: nat, b: nat)
    requires b < Pow2(k)
    ensures Or(Shl(x, k), b) == Or(b, Shl(x, k)) == Shl(x, k) + b
  {
    if k == 0 {
      OrZero(x);
    } else {
      var a := Shl(x, k);
      assert a == 2 * Shl(x, k - 1) by { DoubleShift(x, k); }
      OrDisjoint(x, k - 1, b / 2);
    }
  }

  lemma DoubleShift(x: nat, k: nat)
    requires k > 0
    ensures Shl(x, k) == 2 * Shl(x, k - 1)
  {
    assert x * (2 * Pow2(k - 1)) == 2 * (x * Pow2(k - 1));
  }

  lemma {:induction false} OrZero(x: nat)
    ensures Or(x, 0) == Or(0, x) == x
  {
    if x == 0 {
    } else {
      OrZero(x / 2);
    }
  }

  /** A high part above `k` bits and a low part can be taken apart again. */
  lemma SplitHighLow(high: nat, k: nat, low: nat)
    requires low < Pow2(k)
    ensures (Shl(high, k) + low) / Pow2(k) == high && (Shl(high, k) + low) % Pow2(k) == low
  {
    DivModUnique(Shl(high, k) + low, Pow2(k), high, low);
  }

  lemma ShlTwice(x: nat, a: nat, b: nat)
    ensures Shl(Shl(x, a), b) == Shl(x, a + b) == Shl(x, b + a)
  {
    hide Pow2;
    Pow2Adds(a, b);
    TimesAssociates(x, Pow2(a), Pow2(b));
  }

  lemma TimesAssociates(x: nat, y: nat, z: nat)
    ensures x * (y * z) == x * y * z
  {
  }

  lemma ShrOfSum(high: nat, low: nat, k: nat)
    ensures Shr(Shl(high, k) + low, k) == high + Shr(low, k)
  {
    AddMultiple(low, high, Pow2(k));
  }

  lemma LowOfSum(high: nat, low: nat, k: nat)
    ensures (Shl(high, k) + low) % Pow2(k) == low % Pow2(k)
  {
    AddMultiple(low, high, Pow2(k));
  }

  lemma AddMultiple(x: nat, q: nat, d: nat)
    requires d > 0
    ensures (q * d + x) / d == q + x / d && (q * d + x) % d == x % d
  {
    DivModUnique(q * d + x, d, q + x / d, x % d);
  }

  lemma DivModUnique(x: nat, d: nat, q: nat, r: nat)
    requires d > 0 && r < d && x == q * d + r
    ensures x / d == q && x % d == r
  {
    var p := x / d;
    assert x == p * d + x % d;
    assert p < q ==> (p + 1) * d <= q * d;
    assert q < p ==> (q + 1) * d <= p * d;
  }
}
