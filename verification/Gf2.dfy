/**
 Natural numbers as polynomials over GF(2): bit i of a number is the coefficient of x^i.
 Addition is exclusive or, multiplication is carry-less.
 */
module Gf2 {
  function Pow2(k: nat): (p: nat)
    ensures p > 0
  {
    if k == 0 then 1 else 2 * Pow2(k - 1)
  }

  /** `a << k`: multiplication by x^k. */
  function Shl(a: nat, k: nat): nat {
    if k == 0 then a else 2 * Shl(a, k - 1)
  }

  /** The `^` of two non-negative Python integers. */
  function Xor(a: nat, b: nat): nat {
    if a == 0 && b == 0 then 0 else XorBit(a, b) + 2 * Xor(a / 2, b / 2)
  }

  /** The exclusive or of the lowest bits. */
  function XorBit(a: nat, b: nat): (r: nat)
    ensures r < 2
  {
    if a % 2 == b % 2 then 0 else 1
  }

  function Mul(q: nat, g: nat): nat {
    if q == 0 then 0 else Xor(if q % 2 == 1 then g else 0, 2 * Mul(q / 2, g))
  }

  ghost predicate Divides(g: nat, p: nat) {
    exists q: nat :: p == Mul(q, g)
  }

  /** `r` is what is left of `p` modulo `g`. */
  ghost predicate Congruent(p: nat, r: nat, g: nat) {
    exists q: nat :: p == Xor(Mul(q, g), r)
  }

  // ----- Exclusive or is a group operation in which every element is its own inverse

  lemma {:induction false} XorParts(a: nat, b: nat)
    ensures Xor(a, b) == XorBit(a, b) + 2 * Xor(a / 2, b / 2)
    ensures Xor(a, b) % 2 == XorBit(a, b) && Xor(a, b) / 2 == Xor(a / 2, b / 2)
  {
  }

  lemma {:induction false} XorZero(a: nat)
    ensures Xor(a, 0) == a && Xor(0, a) == a
  {
    if a != 0 { XorZero(a / 2); }
  }

  lemma {:induction false} XorSelf(a: nat)
    ensures Xor(a, a) == 0
  {
    if a != 0 { XorSelf(a / 2); }
  }

  lemma {:induction false} XorComm(a: nat, b: nat)
    ensures Xor(a, b) == Xor(b, a)
  {
    if a != 0 || b != 0 { XorComm(a / 2, b / 2); }
  }

  lemma {:induction false} XorAssoc(a: nat, b: nat, c: nat)
    ensures Xor(Xor(a, b), c) == Xor(a, Xor(b, c))
    decreases a + b + c
  {
    if a != 0 || b != 0 || c != 0 {
      hide Xor;
      XorAssoc(a / 2, b / 2, c / 2);
      XorParts(a, b);
      XorParts(b, c);
      XorParts(Xor(a, b), c);
      XorParts(a, Xor(b, c));
    }
  }

  lemma {:induction false} XorCancel(a: nat, b: nat)
    ensures Xor(Xor(a, b), b) == a && Xor(a, Xor(a, b)) == b
  {
    XorAssoc(a, b, b);
    XorAssoc(a, a, b);
    XorSelf(a);
    XorSelf(b);
    XorZero(a);
    XorZero(b);
  }

  lemma {:induction false} XorIsZero(a: nat, b: nat)
    ensures Xor(a, b) == 0 <==> a == b
  {
    XorSelf(a);
    XorCancel(a, b);
    XorZero(b);
  }

  lemma {:induction false} XorSwapMiddle(a: nat, b: nat, c: nat, d: nat)
    ensures Xor(Xor(a, b), Xor(c, d)) == Xor(Xor(a, c), Xor(b, d))
  {
    XorAssoc(a, b, Xor(c, d));
    XorAssoc(b, c, d);
    XorComm(b, c);
    XorAssoc(c, b, d);
    XorAssoc(a, c, Xor(b, d));
  }

  // ----- Blocks of bits do not interfere

  lemma {:induction false} XorBlocks(a: nat, b: nat, c: nat, d: nat, k: nat)
    requires c < Pow2(k) && d < Pow2(k)
    ensures Xor(c, d) < Pow2(k)
    ensures Xor(Shl(a, k) + c, Shl(b, k) + d) == Shl(Xor(a, b), k) + Xor(c, d)
  {
    hide Xor;
    if k == 0 {
      XorZero(0);
    } else {
      XorBlocks(a, b, c / 2, d / 2, k - 1);
      XorStep(Shl(a, k) + c, Shl(b, k) + d, c, d, Shl(Xor(a, b), k - 1));
    }
  }

  lemma {:induction false} XorStep(u: nat, v: nat, c: nat, d: nat, x: nat)
    requires u % 2 == c % 2 && v % 2 == d % 2
    requires Xor(u / 2, v / 2) == x + Xor(c / 2, d / 2)
    ensures Xor(u, v) == 2 * x + Xor(c, d)
    ensures Xor(c, d) < 2 * Xor(c / 2, d / 2) + 2
  {
    XorParts(u, v);
    XorParts(c, d);
  }

  lemma {:induction false} XorIsPlus(a: nat, c: nat, k: nat)
    requires c < Pow2(k)
    ensures Xor(Shl(a, k), c) == Shl(a, k) + c
  {
    hide Xor;
    XorBlocks(a, 0, 0, c, k);
    ShlZero(k);
    XorZero(a);
    XorZero(c);
  }

  lemma {:induction false} ShlZero(k: nat)
    ensures Shl(0, k) == 0 && Shl(1, k) == Pow2(k)
  {
    if k != 0 { ShlZero(k - 1); }
  }

  lemma {:induction false} XorShl(a: nat, b: nat, k: nat)
    ensures Xor(Shl(a, k), Shl(b, k)) == Shl(Xor(a, b), k)
  {
    if k != 0 {
      XorShl(a, b, k - 1);
      XorDouble(Shl(a, k - 1), Shl(b, k - 1));
    }
  }

  lemma {:induction false} XorDouble(a: nat, b: nat)
    ensures Xor(2 * a, 2 * b) == 2 * Xor(a, b)
  {
    XorParts(2 * a, 2 * b);
  }

  // ----- Multiplication

  lemma {:induction false} MulZeroAndOne(g: nat)
    ensures Mul(0, g) == 0 && Mul(1, g) == g
  {
    XorZero(g);
  }

  lemma {:induction false} MulDouble(q: nat, g: nat)
    ensures Mul(2 * q, g) == 2 * Mul(q, g)
  {
    XorZero(2 * Mul(q, g));
  }

  lemma {:induction false} MulXor(p: nat, q: nat, g: nat)
    ensures Mul(Xor(p, q), g) == Xor(Mul(p, g), Mul(q, g))
  {
    if p != 0 || q != 0 {
      hide Xor, Mul;
      MulXor(p / 2, q / 2, g);
      XorParts(p, q);
      var x, y := Mul(p / 2, g), Mul(q / 2, g);
      var gp, gq := if p % 2 == 1 then g else 0, if q % 2 == 1 then g else 0;
      MulHalf(p, g);
      MulHalf(q, g);
      MulHalf(Xor(p, q), g);
      XorSwapMiddle(gp, 2 * x, gq, 2 * y);
      XorDouble(x, y);
      XorZero(g);
      XorSelf(g);
      XorZero(0);
    }
  }

  lemma {:induction false} MulHalf(q: nat, g: nat)
    ensures Mul(q, g) == Xor(if q % 2 == 1 then g else 0, 2 * Mul(q / 2, g))
  {
    XorZero(0);
  }

  /** A nonzero multiple is at least as long as the divisor. */
  lemma {:induction false} MulDegree(q: nat, g: nat, j: nat, k: nat)
    requires Pow2(j) <= q < Pow2(j + 1) && Pow2(k) <= g < Pow2(k + 1)
    ensures Pow2(j + k) <= Mul(q, g) < Pow2(j + k + 1)
  {
    if j == 0 {
      assert q == 1;
      MulZeroAndOne(g);
    } else {
      MulDegree(q / 2, g, j - 1, k);
      MulHalf(q, g);
      Pow2Monotone(k + 1, j + k);
      XorLeading(2 * Mul(q / 2, g), if q % 2 == 1 then g else 0, j + k);
      XorComm(2 * Mul(q / 2, g), if q % 2 == 1 then g else 0);
    }
  }

  lemma {:induction false} Pow2Monotone(m: nat, n: nat)
    requires m <= n
    ensures Pow2(m) <= Pow2(n)
  {
    if m < n { Pow2Monotone(m, n - 1); }
  }

  /** Exclusive or with a shorter number keeps the leading bit. */
  lemma {:induction false} XorLeading(a: nat, b: nat, n: nat)
    requires Pow2(n) <= a < Pow2(n + 1) && b < Pow2(n)
    ensures Pow2(n) <= Xor(a, b) < Pow2(n + 1)
  {
    hide Xor;
    ShlZero(n);
    XorBlocks(1, 0, a - Pow2(n), b, n);
    XorZero(1);
  }

  lemma {:induction false} HasLength(q: nat) returns (j: nat)
    requires q > 0
    ensures Pow2(j) <= q < Pow2(j + 1)
  {
    if q == 1 {
      j := 0;
    } else {
      j := HasLength(q / 2);
      j := j + 1;
    }
  }

  lemma {:induction false} ShortMultipleIsZero(q: nat, g: nat, k: nat)
    requires Pow2(k) <= g < Pow2(k + 1) && Mul(q, g) < Pow2(k)
    ensures q == 0
  {
    if q != 0 {
      var j := HasLength(q);
      MulDegree(q, g, j, k);
      Pow2Monotone(k, j + k);
    }
  }

  // ----- Divisibility and remainders

  /** Two remainders of the same polynomial shorter than the divisor are equal. */
  lemma {:induction false} RemainderUnique(p: nat, r: nat, s: nat, g: nat, k: nat)
    requires Pow2(k) <= g < Pow2(k + 1)
    requires Congruent(p, r, g) && Congruent(p, s, g) && r < Pow2(k) && s < Pow2(k)
    ensures r == s
  {
    var q: nat :| p == Xor(Mul(q, g), r);
    var t: nat :| p == Xor(Mul(t, g), s);
    XorSwapMiddle(Mul(q, g), r, Mul(t, g), s);
    XorSelf(p);
    MulXor(q, t, g);
    XorIsZero(Mul(Xor(q, t), g), Xor(r, s));
    XorBlocks(0, 0, r, s, k);
    ShortMultipleIsZero(Xor(q, t), g, k);
    MulZeroAndOne(g);
    XorIsZero(r, s);
  }

  lemma {:induction false} DividesIsZeroRemainder(g: nat, p: nat)
    ensures Divides(g, p) <==> Congruent(p, 0, g)
  {
    forall q: nat ensures Xor(Mul(q, g), 0) == Mul(q, g) { XorZero(Mul(q, g)); }
  }

  lemma {:induction false} CongruentXor(p: nat, r: nat, q: nat, s: nat, g: nat)
    requires Congruent(p, r, g) && Congruent(q, s, g)
    ensures Congruent(Xor(p, q), Xor(r, s), g)
  {
    var a: nat :| p == Xor(Mul(a, g), r);
    var b: nat :| q == Xor(Mul(b, g), s);
    XorSwapMiddle(Mul(a, g), r, Mul(b, g), s);
    MulXor(a, b, g);
    assert Xor(p, q) == Xor(Mul(Xor(a, b), g), Xor(r, s));
  }

  /** An odd divisor never divides because of a factor x. */
  lemma {:induction false} DividesDouble(g: nat, p: nat)
    requires g % 2 == 1
    ensures Divides(g, 2 * p) <==> Divides(g, p)
  {
    if Divides(g, p) {
      var q: nat :| p == Mul(q, g);
      MulDouble(q, g);
      assert 2 * p == Mul(2 * q, g);
    }
    if Divides(g, 2 * p) {
      var q: nat :| 2 * p == Mul(q, g);
      MulHalf(q, g);
      XorParts(if q % 2 == 1 then g else 0, 2 * Mul(q / 2, g));
      assert q % 2 == 0;
      MulDouble(q / 2, g);
      assert p == Mul(q / 2, g);
    }
  }

  lemma {:induction false} DividesShl(g: nat, p: nat, k: nat)
    requires g % 2 == 1
    ensures Divides(g, Shl(p, k)) <==> Divides(g, p)
  {
    if k != 0 {
      DividesShl(g, p, k - 1);
      DividesDouble(g, Shl(p, k - 1));
    }
  }

  // ----- Weight

  /** Whether a number has an odd number of one bits. */
  predicate OddWeight(a: nat) {
    a != 0 && (a % 2 == 1) != OddWeight(a / 2)
  }

  lemma {:induction false} WeightXor(a: nat, b: nat)
    ensures OddWeight(Xor(a, b)) == (OddWeight(a) != OddWeight(b))
  {
    if a != 0 || b != 0 {
      WeightXor(a / 2, b / 2);
      XorParts(a, b);
    }
  }

  /** Multiples of a divisor of even weight have even weight. */
  lemma {:induction false} WeightMul(q: nat, g: nat)
    requires !OddWeight(g)
    ensures !OddWeight(Mul(q, g))
  {
    if q != 0 {
      WeightMul(q / 2, g);
      WeightXor(if q % 2 == 1 then g else 0, 2 * Mul(q / 2, g));
    }
  }
}
