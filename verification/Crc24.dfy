/**
 The Mode S parity of mn_wifi/aviation.py. `crc24` shifts a Python integer that is never
 masked inside its loop; it is proved to leave the remainder of the message times x^24
 modulo x^24 + 0xFFF409, from which the error-detecting power follows.
 */
module Crc24 {
  import opened Gf2

  type Bit = b: nat | b < 2

  const POLY := 0xFFF409
  const GENERATOR := 0x1FFF409  // x^24 + POLY
  const TWO_24 := 0x1000000

  /** The number a bit string spells, first bit most significant. */
  function Val(bits: seq<Bit>): nat {
    if bits == [] then 0 else 2 * Val(bits[..|bits| - 1]) + bits[|bits| - 1]
  }

  /** The last `k` bits of `n`, most significant first. */
  function Bits(n: nat, k: nat): (s: seq<Bit>)
    ensures |s| == k
  {
    if k == 0 then [] else Bits(n / 2, k - 1) + [n % 2]
  }

  function Zeros(n: nat): (s: seq<Bit>)
    ensures |s| == n && forall i :: 0 <= i < n ==> s[i] == 0
  {
    seq(n, _ => 0)
  }

  /** One step of the 24-bit shift register. */
  function Step(r: nat, bit: Bit): (s: nat)
    ensures s < TWO_24
  {
    var t := 2 * r;
    (if t / TWO_24 % 2 != bit then Xor(t, POLY) else t) % TWO_24
  }

  function Register(msg: seq<Bit>): (r: nat)
    ensures r < TWO_24
  {
    if msg == [] then 0 else Step(Register(msg[..|msg| - 1]), msg[|msg| - 1])
  }

  // ----- The loop on an unmasked register

  method ComputeCrc24(msgBits: seq<Bit>) returns (crc: nat)
    ensures crc == Register(msgBits)
    ensures crc < 0x1000000 && Congruent(Shl(Val(msgBits), 24), crc, 0x1FFF409)
  {
    var reg: nat := 0;
    for i := 0 to |msgBits|
      invariant reg % TWO_24 == Register(msgBits[..i])
    {
      UnmaskedStep(reg, msgBits[i]);
      assert msgBits[..i + 1] == msgBits[..i] + [msgBits[i]];
      reg := 2 * reg;
      var bit := msgBits[i];
      if Xor(reg / TWO_24, bit) % 2 == 1 {
        reg := Xor(reg, POLY);
      }
    }
    assert msgBits[..|msgBits|] == msgBits;
    RegisterIsRemainder(msgBits);
    return reg % TWO_24;
  }

  lemma GeneratorFacts()
    ensures Pow2(24) == TWO_24 <= GENERATOR < Pow2(25) && GENERATOR % 2 == 1
  {
    assert Pow2(5) == 0x20 && Pow2(10) == 0x400 && Pow2(15) == 0x8000 && Pow2(20) == 0x10_0000;
  }

  lemma ShlIsTimes(a: nat, k: nat)
    ensures Shl(a, k) == a * Pow2(k)
  {
    if k != 0 {
      ShlIsTimes(a, k - 1);
      assert a * Pow2(k) == 2 * (a * Pow2(k - 1));
    }
  }

  lemma Shl24(a: nat)
    ensures Shl(a, 24) == TWO_24 * a && Pow2(24) == TWO_24
  {
    ShlIsTimes(a, 24);
    GeneratorFacts();
  }

  /** Bits that have left the low 24 never come back. */
  lemma UnmaskedStep(reg: nat, bit: Bit)
    ensures var t := 2 * reg;
            (if Xor(t / TWO_24, bit) % 2 == 1 then Xor(t, POLY) else t) % TWO_24 == Step(reg % TWO_24, bit)
  {
    hide Xor;
    var t, u := 2 * reg, 2 * (reg % TWO_24);
    XorParts(t / TWO_24, bit);
    LowBits(t);
    LowBits(u);
    Doubled(reg / TWO_24, reg % TWO_24);
  }

  lemma Doubled(high: nat, low: nat)
    requires low < TWO_24
    ensures var t := 2 * (TWO_24 * high + low);
            t % TWO_24 == 2 * low % TWO_24 && t / TWO_24 % 2 == 2 * low / TWO_24 % 2
  {
    var carry := if 2 * low >= TWO_24 then 1 else 0;
    Quotient(carry, 2 * low - TWO_24 * carry);
    Quotient(2 * high + carry, 2 * low - TWO_24 * carry);
  }

  lemma Quotient(q: nat, r: nat)
    requires r < TWO_24
    ensures (TWO_24 * q + r) / TWO_24 == q && (TWO_24 * q + r) % TWO_24 == r
  {
  }

  lemma LowBits(t: nat)
    ensures Xor(t, POLY) % TWO_24 == Xor(t % TWO_24, POLY) < TWO_24
  {
    hide Xor;
    var high, low := t / TWO_24, t % TWO_24;
    Shl24(high);
    Shl24(0);
    Shl24(Xor(high, 0));
    XorBlocks(high, 0, low, POLY, 24);
  }

  // ----- The register is a polynomial remainder

  lemma {:induction false} RegisterIsRemainder(msg: seq<Bit>)
    ensures Register(msg) < 0x1000000 && Congruent(Shl(Val(msg), 24), Register(msg), 0x1FFF409)
  {
    hide Xor, Mul, Shl;
    if msg == [] {
      Shl24(0);
      MulZeroAndOne(GENERATOR);
      XorZero(0);
      assert 0 == Xor(Mul(0, GENERATOR), 0);
    } else {
      var init, bit := msg[..|msg| - 1], msg[|msg| - 1];
      RegisterIsRemainder(init);
      StepKeepsCongruence(Val(init), Register(init), bit);
    }
  }

  lemma StepKeepsCongruence(v: nat, r: nat, bit: Bit)
    requires r < TWO_24 && Congruent(Shl(v, 24), r, GENERATOR)
    ensures Congruent(Shl(2 * v + bit, 24), Step(r, bit), GENERATOR)
  {
    hide Xor, Mul, Shl, Step;
    Shl24(v);
    Shl24(2 * v + bit);
    Shl24(2 * v);
    Shl24(bit);
    CongruentDouble(Shl(v, 24), r, GENERATOR);
    CongruentRefl(Shl(bit, 24), GENERATOR);
    CongruentXor(2 * Shl(v, 24), 2 * r, Shl(bit, 24), Shl(bit, 24), GENERATOR);
    XorAppendBit(v, bit);
    XorShl(2 * v, bit, 24);
    StepReduces(r, bit);
    if Xor(2 * r, Shl(bit, 24)) != Step(r, bit) {
      CongruentDivisor(Shl(2 * v + bit, 24), Step(r, bit), GENERATOR);
    }
  }

  lemma XorAppendBit(v: nat, bit: Bit)
    ensures Xor(2 * v, bit) == 2 * v + bit
  {
    hide Xor;
    XorParts(2 * v, bit);
    XorZero(v);
  }

  lemma CongruentDouble(p: nat, r: nat, g: nat)
    requires Congruent(p, r, g)
    ensures Congruent(2 * p, 2 * r, g)
  {
    hide Xor, Mul;
    var q: nat :| p == Xor(Mul(q, g), r);
    MulDouble(q, g);
    XorDouble(Mul(q, g), r);
    assert 2 * p == Xor(Mul(2 * q, g), 2 * r);
  }

  lemma CongruentRefl(p: nat, g: nat)
    ensures Congruent(p, p, g)
  {
    MulZeroAndOne(g);
    XorZero(p);
    assert p == Xor(Mul(0, g), p);
  }

  lemma CongruentDivisor(p: nat, r: nat, g: nat)
    requires Congruent(p, Xor(r, g), g)
    ensures Congruent(p, r, g)
  {
    hide Xor, Mul;
    MulZeroAndOne(g);
    XorZero(g);
    assert g == Xor(Mul(1, g), 0);
    CongruentXor(p, Xor(r, g), g, 0, g);
    CongruentRefl(p, g);
    var q: nat :| p == Xor(Mul(q, g), Xor(r, g));
    XorComm(r, g);
    XorAssoc(Mul(q, g), g, r);
    MulXor(q, 1, g);
    assert p == Xor(Mul(Xor(q, 1), g), r);
  }

  /** A step is the shifted-in polynomial, less the generator when bit 24 is set. */
  lemma StepReduces(r: nat, bit: Bit)
    requires r < TWO_24
    ensures var s := Xor(2 * r, Shl(bit, 24));
            s == Step(r, bit) || s == Xor(Step(r, bit), GENERATOR)
  {
    hide Xor, Shl;
    var t := 2 * r;
    var top, low := t / TWO_24, t % TWO_24;
    Shl24(top);
    Shl24(bit);
    Shl24(Xor(top, bit));
    XorBlocks(top, bit, low, 0, 24);
    XorZero(low);
    LowBits(t);
    XorSmall(top, bit);
    if top != bit {
      var reduced := Xor(low, POLY);
      Shl24(0);
      Shl24(1);
      XorZero(1);
      XorBlocks(0, 1, reduced, POLY, 24);
      XorCancel(low, POLY);
    }
  }

  lemma XorSmall(a: Bit, b: Bit)
    ensures Xor(a, b) == if a == b then 0 else 1
  {
    XorSelf(a);
    XorZero(a);
    XorZero(b);
  }

  // ----- What the remainder detects

  /** The receiver's check: a zero register means the generator divides the message. */
  lemma RegisterIsZero(msg: seq<Bit>)
    ensures Register(msg) == 0 <==> Divides(0x1FFF409, Val(msg))
  {
    hide Xor, Mul, Shl;
    GeneratorFacts();
    RegisterIsRemainder(msg);
    DividesShl(GENERATOR, Val(msg), 24);
    DividesIsZeroRemainder(GENERATOR, Shl(Val(msg), 24));
    if Divides(GENERATOR, Val(msg)) {
      RemainderUnique(Shl(Val(msg), 24), Register(msg), 0, GENERATOR, 24);
    }
  }

  lemma {:induction false} ValConcat(a: seq<Bit>, b: seq<Bit>)
    ensures Val(a + b) == Shl(Val(a), |b|) + Val(b)
  {
    if b == [] {
      assert a + b == a;
    } else {
      var init := b[..|b| - 1];
      assert (a + b)[..|a + b| - 1] == a + init;
      ValConcat(a, init);
    }
  }

  lemma {:induction false} ValBound(a: seq<Bit>)
    ensures Val(a) < Pow2(|a|)
  {
    if a != [] { ValBound(a[..|a| - 1]); }
  }

  lemma {:induction false} ValOfBits(n: nat, k: nat)
    requires n < Pow2(k)
    ensures Val(Bits(n, k)) == n
  {
    if k != 0 {
      var front := Bits(n / 2, k - 1);
      ValOfBits(n / 2, k - 1);
      assert (front + [n % 2])[..k - 1] == front;
    }
  }

  /** A message checks to zero exactly when its last 24 bits are its own parity. */
  lemma Codeword(msg: seq<Bit>, p: nat)
    requires p < TWO_24
    ensures Register(msg + Bits(p, 24)) == 0 <==> p == Register(msg)
  {
    hide Xor, Mul, Shl, Val, Register;
    GeneratorFacts();
    var shifted, r := Shl(Val(msg), 24), Register(msg);
    ValConcat(msg, Bits(p, 24));
    ValOfBits(p, 24);
    XorIsPlus(Val(msg), p, 24);
    RegisterIsZero(msg + Bits(p, 24));
    RegisterIsRemainder(msg);
    DividesXor(shifted, p);
    if Congruent(shifted, p, GENERATOR) {
      RemainderUnique(shifted, r, p, GENERATOR, 24);
    }
  }

  lemma DividesXor(a: nat, p: nat)
    ensures Divides(GENERATOR, Xor(a, p)) <==> Congruent(a, p, GENERATOR)
  {
    hide Xor, Mul;
    if Divides(GENERATOR, Xor(a, p)) {
      var q: nat :| Xor(a, p) == Mul(q, GENERATOR);
      XorCancel(a, p);
      assert a == Xor(Mul(q, GENERATOR), p);
    }
    if Congruent(a, p, GENERATOR) {
      var q: nat :| a == Xor(Mul(q, GENERATOR), p);
      XorCancel(Mul(q, GENERATOR), p);
      assert Xor(a, p) == Mul(q, GENERATOR);
    }
  }

  function XorBits(a: seq<Bit>, b: seq<Bit>): (c: seq<Bit>)
    requires |a| == |b|
    ensures |c| == |a|
  {
    seq(|a|, i requires 0 <= i < |a| => if a[i] == b[i] then 0 else 1)
  }

  lemma {:induction false} ValXor(a: seq<Bit>, b: seq<Bit>)
    requires |a| == |b|
    ensures Val(XorBits(a, b)) == Xor(Val(a), Val(b))
  {
    if a == [] {
      XorZero(0);
    } else {
      hide Xor;
      var n := |a| - 1;
      ValXor(a[..n], b[..n]);
      assert XorBits(a, b)[..n] == XorBits(a[..n], b[..n]);
      XorParts(Val(a), Val(b));
    }
  }

  /** The parity is linear: it commutes with exclusive or of equally long messages. */
  lemma RegisterXor(a: seq<Bit>, b: seq<Bit>)
    requires |a| == |b|
    ensures Register(XorBits(a, b)) == Xor(Register(a), Register(b))
  {
    hide Xor, Mul, Shl, Val, Register;
    GeneratorFacts();
    RegisterIsRemainder(a);
    RegisterIsRemainder(b);
    RegisterIsRemainder(XorBits(a, b));
    ValXor(a, b);
    XorShl(Val(a), Val(b), 24);
    CongruentXor(Shl(Val(a), 24), Register(a), Shl(Val(b), 24), Register(b), GENERATOR);
    XorBlocks(0, 0, Register(a), Register(b), 24);
    RemainderUnique(Shl(Val(XorBits(a, b)), 24), Register(XorBits(a, b)),
                    Xor(Register(a), Register(b)), GENERATOR, 24);
  }

  /** An error pattern goes unnoticed on one codeword exactly when it does on all: when the generator divides it. */
  lemma ErrorUnnoticed(codeword: seq<Bit>, error: seq<Bit>)
    requires |codeword| == |error| && Register(codeword) == 0
    ensures Register(XorBits(codeword, error)) == 0 <==> Divides(0x1FFF409, Val(error))
  {
    RegisterXor(codeword, error);
    XorZero(Register(error));
    RegisterIsZero(error);
  }

  lemma {:induction false} ValZeros(n: nat)
    ensures Val(Zeros(n)) == 0
  {
    if n != 0 {
      ValZeros(n - 1);
      assert Zeros(n)[..n - 1] == Zeros(n - 1);
    }
  }

  lemma {:induction false} ValPositive(w: seq<Bit>, i: nat)
    requires i < |w| && w[i] == 1
    ensures Val(w) > 0
  {
    if i < |w| - 1 { ValPositive(w[..|w| - 1], i); }
  }

  /** Every nonzero error confined to 24 consecutive bits, wherever it sits, is noticed. */
  lemma BurstNoticed(codeword: seq<Bit>, before: nat, burst: seq<Bit>, after: nat, i: nat)
    requires |codeword| == before + |burst| + after && Register(codeword) == 0
    requires |burst| <= 24 && i < |burst| && burst[i] == 1
    ensures Register(XorBits(codeword, Zeros(before) + burst + Zeros(after))) != 0
  {
    hide Xor, Mul, Shl, Val, Register;
    var error := Zeros(before) + burst + Zeros(after);
    ErrorUnnoticed(codeword, error);
    ValConcat(Zeros(before) + burst, Zeros(after));
    ValConcat(Zeros(before), burst);
    ValZeros(before);
    ValZeros(after);
    ShlZero(|burst|);
    GeneratorFacts();
    DividesShl(GENERATOR, Val(burst), after);
    ValPositive(burst, i);
    ValBound(burst);
    Pow2Monotone(|burst|, 24);
    NoShortMultiple(Val(burst));
  }

  lemma NoShortMultiple(v: nat)
    requires 0 < v < TWO_24
    ensures !Divides(GENERATOR, v)
  {
    hide Xor, Mul;
    GeneratorFacts();
    if Divides(GENERATOR, v) {
      var q: nat :| v == Mul(q, GENERATOR);
      ShortMultipleIsZero(q, GENERATOR, 24);
      MulZeroAndOne(GENERATOR);
    }
  }

  predicate OddOnes(bits: seq<Bit>) {
    bits != [] && (bits[|bits| - 1] == 1) != OddOnes(bits[..|bits| - 1])
  }

  lemma {:induction false} WeightOfVal(bits: seq<Bit>)
    ensures OddWeight(Val(bits)) == OddOnes(bits)
  {
    if bits != [] { WeightOfVal(bits[..|bits| - 1]); }
  }

  /** Every error in an odd number of bits is noticed: the generator has sixteen terms. */
  lemma OddErrorNoticed(codeword: seq<Bit>, error: seq<Bit>)
    requires |codeword| == |error| && Register(codeword) == 0 && OddOnes(error)
    ensures Register(XorBits(codeword, error)) != 0
  {
    ErrorUnnoticed(codeword, error);
    WeightOfVal(error);
    GeneratorWeight();
    if Divides(GENERATOR, Val(error)) {
      var q: nat :| Val(error) == Mul(q, GENERATOR);
      WeightMul(q, GENERATOR);
    }
  }

  lemma GeneratorWeight()
    ensures !OddWeight(GENERATOR)
  {
    assert OddWeight(0x1);
    assert OddWeight(0x7);
    assert OddWeight(0x1F);
    assert OddWeight(0x7F);
    assert OddWeight(0x1FF);
    assert OddWeight(0x7FF);
    assert OddWeight(0x1FFF);
    assert !OddWeight(0x7FFD);
    assert !OddWeight(0x1FFF4);
    assert !OddWeight(0x7FFD0);
    assert !OddWeight(0x1FFF40);
    assert OddWeight(0x7FFD02);
    assert !OddWeight(0x1FFF409);
  }
}
