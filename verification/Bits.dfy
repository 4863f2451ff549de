/** Unsigned machine words as natural numbers, with the bitwise operators defined bit by bit.
    A right shift by k is division by 2^k and a left shift multiplication by 2^k, which is
    how C and C++ define them; what has to be proved is what `&` and `|` compute. */
module Bits {

  const TWO32: nat := 0x1_0000_0000

  const TWO64: nat := 0x1_0000_0000_0000_0000

  type u32 = x: nat | x < TWO32

  function Pow2(k: nat): (r: nat)
    ensures r > 0
  {
    if k == 0 then 1 else 2 * Pow2(k - 1)
  }

  function And(x: nat, y: nat): nat
    decreases x
  {
    if x == 0 || y == 0 then 0 else 2 * And(x / 2, y / 2) + (x % 2) * (y % 2)
  }

  function Or(x: nat, y: nat): nat
    decreases x
  {
    if x == 0 then y
    else if y == 0 then x
    else 2 * Or(x / 2, y / 2) + (if x % 2 == 1 || y % 2 == 1 then 1 else 0)
  }

  ghost predicate IsPow2(n: nat) {
    exists k: nat :: n == Pow2(k)
  }

  /** The floor of the base-2 logarithm. */
  function Log2(n: nat): nat
    requires n > 0
  {
    if n == 1 then 0 else 1 + Log2(n / 2)
  }

  lemma {:induction false} Pow2Add(a: nat, b: nat)
    ensures Pow2(a + b) == Pow2(a) * Pow2(b)
  {
    if a != 0 {
      Pow2Add(a - 1, b);
      assert 2 * (Pow2(a - 1) * Pow2(b)) == (2 * Pow2(a - 1)) * Pow2(b);
    }
  }

  lemma {:induction false} Pow2Strict(a: nat, b: nat)
    requires a < b
    ensures 2 * Pow2(a) <= Pow2(b)
  {
    if a + 1 < b {
      Pow2Strict(a, b - 1);
    }
  }

  lemma Pow2Of32()
    ensures Pow2(32) == TWO32 && Pow2(64) == TWO64
  {
    assert Pow2(8) == 0x100;
    Pow2Add(8, 8);
    Pow2Add(16, 16);
    Pow2Add(32, 32);
  }

  lemma {:induction false} Log2OfPow2(k: nat)
    ensures Log2(Pow2(k)) == k
  {
    if k != 0 {
      Log2OfPow2(k - 1);
    }
  }

  /** Masking with 2^k - 1 keeps the remainder modulo 2^k. */
  lemma {:induction false} MaskIsMod(x: nat, k: nat)
    ensures And(x, Pow2(k) - 1) == x % Pow2(k)
  {
    if k == 0 {
      assert x % 1 == 0;
    } else {
      var p := Pow2(k - 1);
      MaskIsMod(x / 2, k - 1);
      assert (2 * p - 1) / 2 == p - 1;
      ModDouble(x, p);
      if x == 0 {
        assert 0 % (2 * p) == 0;
      }
    }
  }

  lemma ModDouble(x: nat, p: nat)
    requires p > 0
    ensures x % (2 * p) == 2 * (x / 2 % p) + x % 2
  {
    var q, r := x / 2 / p, x / 2 % p;
    assert x / 2 == p * q + r;
    assert x == (2 * p) * q + (2 * r + x % 2) by {
      assert 2 * (p * q) == (2 * p) * q;
    }
    DivModUnique(x, 2 * p, q, 2 * r + x % 2);
  }

  lemma DivModUnique(x: nat, d: nat, q: nat, r: nat)
    requires d > 0 && r < d && x == d * q + r
    ensures x / d == q && x % d == r
  {
    var q', r' := x / d, x % d;
    assert x == d * q' + r';
    MulGap(d, q, q');
    MulGap(d, q', q);
  }

  lemma {:induction false} MulGap(d: nat, a: nat, b: nat)
    ensures a < b ==> d * a + d <= d * b
    decreases b
  {
    if a < b {
      MulGap(d, a, b - 1);
      assert d * b == d * (b - 1) + d;
    }
  }

  lemma MulLe(c: nat, x: nat, y: nat)
    requires x <= y
    ensures c * x <= c * y
  {
    MulGap(c, x, y);
  }

  /** `|` of a word shifted left by k and a word below 2^k is their sum. */
  lemma {:induction false} OrIsSum(high: nat, low: nat, k: nat)
    requires low < Pow2(k)
    ensures Or(high * Pow2(k), low) == high * Pow2(k) + low
  {
    if k != 0 && high != 0 && low != 0 {
      var p := Pow2(k - 1);
      assert high * Pow2(k) == 2 * (high * p);
      assert (2 * (high * p)) / 2 == high * p && (2 * (high * p)) % 2 == 0;
      assert high * p > 0;
      OrIsSum(high, low / 2, k - 1);
    }
  }

  /** The test `n > 0 && (n & (n - 1)) == 0` accepts exactly the powers of two. */
  lemma {:induction false} SingleBitTest(n: nat)
    requires n > 0
    ensures And(n, n - 1) == 0 <==> IsPow2(n)
  {
    if n == 1 {
      assert 1 == Pow2(0);
    } else if n % 2 == 1 {
      assert And(n, n - 1) == 2 * And(n / 2, n / 2);
      AndSelf(n / 2);
      forall k: nat ensures n != Pow2(k) {
        if k != 0 { assert Pow2(k) == 2 * Pow2(k - 1); }
      }
    } else {
      assert (n - 1) / 2 == n / 2 - 1;
      assert And(n, n - 1) == 2 * And(n / 2, n / 2 - 1);
      SingleBitTest(n / 2);
      if IsPow2(n / 2) {
        var k: nat :| n / 2 == Pow2(k);
        assert n == Pow2(k + 1);
      }
      if IsPow2(n) {
        var k: nat :| n == Pow2(k);
        assert n / 2 == Pow2(k - 1);
      }
    }
  }

  lemma {:induction false} AndSelf(x: nat)
    ensures And(x, x) == x
  {
    if x != 0 {
      AndSelf(x / 2);
      assert (x % 2) * (x % 2) == x % 2;
    }
  }
}
