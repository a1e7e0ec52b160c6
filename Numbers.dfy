/** Integer helpers shared by the cipher and the reconnection policy. */
module Numbers {

  /** 2 to the power `n` (JavaScript's `Math.pow(2, n)` on non-negative integers). */
  function Pow2(n: nat): (r: nat)
    ensures r >= 1
  {
    if n == 0 then 1 else 2 * Pow2(n - 1)
  }

  /** Powers of two grow with the exponent. */
  lemma {:induction false} Pow2Monotone(m: nat, n: nat)
    requires m <= n
    ensures Pow2(m) <= Pow2(n)
  {
    if m < n {
      Pow2Monotone(m, n - 1);
    }
  }

  /** Bitwise exclusive or of two non-negative integers, bit by bit from the
      least significant end. On non-negative operands this is JavaScript's `^`. */
  function BitXor(a: nat, b: nat): nat
    decreases a + b
  {
    if a == 0 && b == 0 then 0
    else 2 * BitXor(a / 2, b / 2) + (a % 2 + b % 2) % 2
  }

  /** The unfolding of BitXor holds at zero too. */
  lemma XorStep(a: nat, b: nat)
    ensures BitXor(a, b) == 2 * BitXor(a / 2, b / 2) + (a % 2 + b % 2) % 2
  {
  }

  /** Two values below 2^n have an exclusive or below 2^n. */
  lemma {:induction false} XorBelow(a: nat, b: nat, n: nat)
    requires a < Pow2(n) && b < Pow2(n)
    ensures BitXor(a, b) < Pow2(n)
  {
    if n == 0 {
      assert a == 0 && b == 0;
    } else if a != 0 || b != 0 {
      XorBelow(a / 2, b / 2, n - 1);
    }
  }

  /** Halving undoes doubling plus one low bit. */
  lemma HalveBit(q: nat, bit: nat)
    requires bit < 2
    ensures (2 * q + bit) / 2 == q && (2 * q + bit) % 2 == bit
  {
  }

  /** Adding a bit twice modulo 2 cancels it. */
  lemma ParityCancel(x: nat, y: nat)
    requires x < 2 && y < 2
    ensures ((x + y) % 2 + y) % 2 == x
  {
  }

  /** Exclusive or with the same value twice is the identity. */
  lemma {:induction false} XorInvolution(a: nat, b: nat)
    ensures BitXor(BitXor(a, b), b) == a
    decreases a + b
  {
    if a != 0 || b != 0 {
      var q, bit := BitXor(a / 2, b / 2), (a % 2 + b % 2) % 2;
      var r := BitXor(a, b);
      assert r == 2 * q + bit;
      HalveBit(q, bit);
      assert r / 2 == q && r % 2 == bit;
      XorInvolution(a / 2, b / 2);
      assert BitXor(r / 2, b / 2) == a / 2;
      ParityCancel(a % 2, b % 2);
      assert (r % 2 + b % 2) % 2 == a % 2;
      XorStep(r, b);
    }
  }

  /** Exclusive or with zero is the identity. */
  lemma {:induction false} XorZero(a: nat)
    ensures BitXor(a, 0) == a
  {
    if a != 0 {
      XorZero(a / 2);
    }
  }
}
