/** Bitwise operations on natural numbers, bit by bit. */
module Bits {

  function Pow2(k: nat): (p: nat)
    ensures p > 0
  {
    if k == 0 then 1 else 2 * Pow2(k - 1)
  }

  function And(a: nat, b: nat): nat {
    if a == 0 || b == 0 then 0 else a % 2 * (b % 2) + 2 * And(a / 2, b / 2)
  }

  function Xor(a: nat, b: nat): nat
    decreases a + b
  {
    if a == 0 then b else if b == 0 then a else (a + b) % 2 + 2 * Xor(a / 2, b / 2)
  }

  lemma {:induction false} AndOnes(a: nat, k: nat)
    requires a < Pow2(k)
    ensures And(a, Pow2(k) - 1) == a
  {
    if k > 0 && a > 0 {
      assert Pow2(k) - 1 == 2 * (Pow2(k - 1) - 1) + 1;
      AndOnes(a / 2, k - 1);
    }
  }

  lemma {:induction false} XorBound(a: nat, b: nat, k: nat)
    requires a < Pow2(k) && b < Pow2(k)
    ensures Xor(a, b) < Pow2(k)
  {
    if k > 0 {
      XorBound(a / 2, b / 2, k - 1);
    }
  }

  lemma XorHalves(a: nat, b: nat)
    ensures Xor(a, b) == (a + b) % 2 + 2 * Xor(a / 2, b / 2)
  {
  }

  lemma LowBit(low: nat, high: nat)
    requires low < 2
    ensures (low + 2 * high) % 2 == low && (low + 2 * high) / 2 == high
  {
  }

  lemma Parity(a: nat, b: nat, low: nat, high: nat)
    requires low == (a + b) % 2
    ensures (low + 2 * high + b) % 2 == a % 2
  {
  }

  /** Applying the same mask twice undoes it. */
  lemma {:induction false} XorUndoes(a: nat, b: nat)
    ensures Xor(Xor(a, b), b) == a
    decreases a + b
  {
    if a == 0 {
      XorSelf(b);
    } else if b != 0 {
      hide Xor;
      var low, high := (a + b) % 2, Xor(a / 2, b / 2);
      XorHalves(a, b);
      XorUndoes(a / 2, b / 2);
      XorHalves(Xor(a, b), b);
      LowBit(low, high);
      Parity(a, b, low, high);
    }
  }

  lemma {:induction false} XorSelf(a: nat)
    ensures Xor(a, a) == 0
  {
    if a > 0 {
      XorSelf(a / 2);
    }
  }

  lemma Pow2Step(k: nat)
    ensures Pow2(k + 1) == 2 * Pow2(k)
  {
  }

  lemma {:induction false} Pow2Sum(a: nat, b: nat)
    ensures Pow2(a + b) == Pow2(a) * Pow2(b)
    decreases b
  {
    if b > 0 {
      Pow2Sum(a, b - 1);
    }
  }

  /** 2^62, by repeated squaring; the parameter keeps the verifier from counting down from 62. */
  lemma Pow62(k: nat)
    requires k == 2
    ensures Pow2(31 * k) == 0x4000_0000_0000_0000
  {
    assert Pow2(k) == 2 * Pow2(k - 1) == 4 * Pow2(k - 2) == 4;
    Pow2Sum(k, k);
    Pow2Sum(2 * k, 2 * k);
    Pow2Sum(4 * k, 4 * k);
    Pow62From(k);
  }

  lemma Pow62From(k: nat)
    requires k == 2 && Pow2(k) == 4 && Pow2(2 * k) == 0x10 && Pow2(4 * k) == 0x100 && Pow2(8 * k) == 0x1_0000
    ensures Pow2(31 * k) == 0x4000_0000_0000_0000
  {
    hide Pow2;
    Pow2Sum(8 * k, 8 * k);
    Pow2Sum(16 * k, 8 * k);
    Pow2Sum(24 * k, 4 * k);
    Pow2Sum(28 * k, 2 * k);
    Pow2Sum(30 * k, k);
  }

  /** Clearing the two low bits of a word of `k + 2` bits. */
  lemma ClearLowTwo(x: nat, k: nat)
    requires x / 4 < Pow2(k)
    ensures And(x, 4 * (Pow2(k) - 1)) == x - x % 4
  {
    AndOnes(x / 4, k);
    AndShift(x, Pow2(k) - 1);
  }

  lemma AndShift(x: nat, n: nat)
    ensures And(x, 4 * n) == 4 * And(x / 4, n)
  {
    if x > 0 && n > 0 {
      assert 4 * n / 2 == 2 * n && 4 * n % 2 == 0;
      assert And(x, 4 * n) == 2 * And(x / 2, 2 * n);
      if x / 2 > 0 {
        assert And(x / 2, 2 * n) == 2 * And(x / 2 / 2, n);
        assert x / 2 / 2 == x / 4;
      }
    }
  }
}
