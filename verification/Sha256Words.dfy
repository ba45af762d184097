/**
 Words: the operations of FIPS 180-4, sections 2.2.2 and 4.1.2, the macros iw/sha256.c
 computes them with on a 64-bit unsigned long, and the proof that the two agree.
 */
module Sha256Words {
  type Word = bv32
  type Wide = bv64

  // ----- FIPS 180-4

  /** Addition modulo 2^32. */
  function Add(x: Word, y: Word): Word { x + y }

  function RotR(x: Word, n: Word): Word
    requires 0 < n < 32
  {
    (x >> n) | (x << (32 - n))
  }

  function ShR(x: Word, n: Word): Word
    requires n < 32
  {
    x >> n
  }

  function Xor(x: Word, y: Word): Word { x ^ y }

  function Choose(x: Word, y: Word, z: Word): Word { (x & y) ^ (!x & z) }

  function Majority(x: Word, y: Word, z: Word): Word { (x & y) ^ (x & z) ^ (y & z) }

  function BigSigma0(x: Word): Word { Xor(Xor(RotR(x, 2), RotR(x, 13)), RotR(x, 22)) }

  function BigSigma1(x: Word): Word { Xor(Xor(RotR(x, 6), RotR(x, 11)), RotR(x, 25)) }

  function SmallSigma0(x: Word): Word { Xor(Xor(RotR(x, 7), RotR(x, 18)), ShR(x, 3)) }

  function SmallSigma1(x: Word): Word { Xor(Xor(RotR(x, 17), RotR(x, 19)), ShR(x, 10)) }

  // ----- The macros

  /** What assigning an unsigned long to a __u32 keeps. */
  function Low32(x: Wide): Word { (x & 0xFFFFFFFF) as Word }

  function AddW(x: Wide, y: Wide): Wide { x + y }

  function XorW(x: Wide, y: Wide): Wide { x ^ y }

  function RORc(x: Wide, y: Wide): Wide {
    (((x & 0xFFFFFFFF) >> (y & 31)) | (x << (32 - (y & 31)))) & 0xFFFFFFFF
  }

  function R(x: Wide, n: Wide): Wide
    requires n <= 64
  {
    (x & 0xFFFFFFFF) >> n
  }

  function Ch(x: Word, y: Word, z: Word): Word { z ^ (x & (y ^ z)) }

  function Maj(x: Word, y: Word, z: Word): Word { ((x | y) & z) | (x & y) }

  function Sigma0(x: Word): Wide { XorW(XorW(RORc(x as Wide, 2), RORc(x as Wide, 13)), RORc(x as Wide, 22)) }

  function Sigma1(x: Word): Wide { XorW(XorW(RORc(x as Wide, 6), RORc(x as Wide, 11)), RORc(x as Wide, 25)) }

  function Gamma0(x: Word): Wide { XorW(XorW(RORc(x as Wide, 7), RORc(x as Wide, 18)), R(x as Wide, 3)) }

  function Gamma1(x: Word): Wide { XorW(XorW(RORc(x as Wide, 17), RORc(x as Wide, 19)), R(x as Wide, 10)) }

  /** The sum RND assigns to t0. */
  function T0(e: Word, f: Word, g: Word, h: Word, k: Word, w: Word): Wide {
    AddW(AddW(AddW(AddW(h as Wide, Sigma1(e)), Ch(e, f, g) as Wide), k as Wide), w as Wide)
  }

  /** The sum RND assigns to t1. */
  function T1(a: Word, b: Word, c: Word): Wide { AddW(Sigma0(a), Maj(a, b, c) as Wide) }

  /** The sum assigned to W[i] for i >= 16. */
  function NextW(w2: Word, w7: Word, w15: Word, w16: Word): Wide {
    AddW(AddW(AddW(Gamma1(w2), w7 as Wide), Gamma0(w15)), w16 as Wide)
  }

  // ----- Bit identities, free of the functions above

  lemma RotateBits(x: Word, n: Word)
    requires 0 < n < 32
    ensures (((x as Wide & 0xFFFFFFFF) >> (n as Wide & 31)) | (x as Wide << (32 - (n as Wide & 31)))) & 0xFFFFFFFF
            == ((x >> n) | (x << (32 - n))) as Wide
  {
  }

  lemma ShiftBits(x: Word, n: Word)
    requires n < 32
    ensures (x as Wide & 0xFFFFFFFF) >> (n as Wide) == (x >> n) as Wide
  {
  }

  lemma LogicBits(x: Word, y: Word, z: Word)
    ensures z ^ (x & (y ^ z)) == (x & y) ^ (!x & z)
    ensures ((x | y) & z) | (x & y) == (x & y) ^ (x & z) ^ (y & z)
  {
  }

  lemma NarrowBits(x: Word)
    ensures (x as Wide & 0xFFFFFFFF) as Word == x
  {
  }

  lemma XorBits(a: Wide, b: Wide)
    ensures ((a ^ b) & 0xFFFFFFFF) as Word == (a & 0xFFFFFFFF) as Word ^ (b & 0xFFFFFFFF) as Word
  {
  }

  lemma SumBits(a: Wide, b: Wide)
    ensures ((a + b) & 0xFFFFFFFF) as Word == (a & 0xFFFFFFFF) as Word + (b & 0xFFFFFFFF) as Word
  {
  }

  // ----- The macros are the functions of the standard

  lemma RORcIsRotR(x: Word, n: Word)
    requires 0 < n < 32
    ensures RORc(x as Wide, n as Wide) == RotR(x, n) as Wide
  {
    RotateBits(x, n);
  }

  /** The rewritten forms of Ch and Maj are the same functions. */
  lemma LogicAgrees(x: Word, y: Word, z: Word)
    ensures Ch(x, y, z) == Choose(x, y, z)
    ensures Maj(x, y, z) == Majority(x, y, z)
  {
    LogicBits(x, y, z);
  }

  lemma Low32OfWord(x: Word)
    ensures Low32(x as Wide) == x
  {
    NarrowBits(x);
  }

  lemma Low32OfRotation(x: Word, n: Word)
    requires 0 < n < 32
    ensures Low32(RORc(x as Wide, n as Wide)) == RotR(x, n)
  {
    RORcIsRotR(x, n);
    Low32OfWord(RotR(x, n));
  }

  lemma Low32OfShift(x: Word, n: Word)
    requires n < 32
    ensures Low32(R(x as Wide, n as Wide)) == ShR(x, n)
  {
    ShiftBits(x, n);
    Low32OfWord(x >> n);
  }

  lemma MaskedSum(a: Wide, b: Wide)
    ensures ((a + b) & 0xFFFFFFFF) as Word == Add((a & 0xFFFFFFFF) as Word, (b & 0xFFFFFFFF) as Word)
  {
    SumBits(a, b);
  }

  lemma Low32OfPlus(a: Wide, b: Wide)
    ensures Low32(a + b) == Add(Low32(a), Low32(b))
  {
    MaskedSum(a, b);
  }

  /** Truncating a wide sum is adding modulo 2^32. */
  lemma Low32OfSum(a: Wide, b: Wide)
    ensures Low32(AddW(a, b)) == Add(Low32(a), Low32(b))
  {
    Low32OfPlus(a, b);
    assert AddW(a, b) == a + b;
  }

  lemma MaskedXor(a: Wide, b: Wide)
    ensures ((a ^ b) & 0xFFFFFFFF) as Word == Xor((a & 0xFFFFFFFF) as Word, (b & 0xFFFFFFFF) as Word)
  {
    XorBits(a, b);
  }

  lemma Low32OfExclusiveOr(a: Wide, b: Wide)
    ensures Low32(a ^ b) == Xor(Low32(a), Low32(b))
  {
    MaskedXor(a, b);
  }

  lemma Low32OfXor(a: Wide, b: Wide)
    ensures Low32(XorW(a, b)) == Xor(Low32(a), Low32(b))
  {
    Low32OfExclusiveOr(a, b);
    assert XorW(a, b) == a ^ b;
  }

  lemma Low32OfXors(a: Wide, b: Wide, c: Wide)
    ensures Low32(XorW(XorW(a, b), c)) == Xor(Xor(Low32(a), Low32(b)), Low32(c))
  {
    Low32OfXor(a, b);
    Low32OfXor(XorW(a, b), c);
  }

  lemma SigmasAgree(x: Word)
    ensures Low32(Sigma0(x)) == BigSigma0(x) && Low32(Sigma1(x)) == BigSigma1(x)
  {
    Low32OfXors(RORc(x as Wide, 2), RORc(x as Wide, 13), RORc(x as Wide, 22));
    Low32OfXors(RORc(x as Wide, 6), RORc(x as Wide, 11), RORc(x as Wide, 25));
    Low32OfRotation(x, 2);
    Low32OfRotation(x, 13);
    Low32OfRotation(x, 22);
    Low32OfRotation(x, 6);
    Low32OfRotation(x, 11);
    Low32OfRotation(x, 25);
  }

  lemma GammasAgree(x: Word)
    ensures Low32(Gamma0(x)) == SmallSigma0(x) && Low32(Gamma1(x)) == SmallSigma1(x)
  {
    Low32OfXors(RORc(x as Wide, 7), RORc(x as Wide, 18), R(x as Wide, 3));
    Low32OfXors(RORc(x as Wide, 17), RORc(x as Wide, 19), R(x as Wide, 10));
    Low32OfRotation(x, 7);
    Low32OfRotation(x, 18);
    Low32OfRotation(x, 17);
    Low32OfRotation(x, 19);
    Low32OfShift(x, 3);
    Low32OfShift(x, 10);
  }

  lemma Low32OfSumWord(a: Wide, x: Word)
    ensures Low32(AddW(a, x as Wide)) == Add(Low32(a), x)
  {
    Low32OfSum(a, x as Wide);
    Low32OfWord(x);
  }

  lemma Low32OfWordSum(x: Word, a: Wide)
    ensures Low32(AddW(x as Wide, a)) == Add(x, Low32(a))
  {
    Low32OfSum(x as Wide, a);
    Low32OfWord(x);
  }

  lemma Low32OfFiveTerms(h: Word, s: Wide, c: Word, k: Word, w: Word)
    ensures Low32(AddW(AddW(AddW(AddW(h as Wide, s), c as Wide), k as Wide), w as Wide))
            == Add(Add(Add(Add(h, Low32(s)), c), k), w)
  {
    Low32OfWordSum(h, s);
    Low32OfSumWord(AddW(h as Wide, s), c);
    Low32OfSumWord(AddW(AddW(h as Wide, s), c as Wide), k);
    Low32OfSumWord(AddW(AddW(AddW(h as Wide, s), c as Wide), k as Wide), w);
  }

  lemma T0Sum(e: Word, f: Word, g: Word, h: Word, k: Word, w: Word)
    ensures Low32(T0(e, f, g, h, k, w)) == Add(Add(Add(Add(h, Low32(Sigma1(e))), Ch(e, f, g)), k), w)
  {
    hide Low32, AddW, Add, Sigma1, Ch;
    Low32OfFiveTerms(h, Sigma1(e), Ch(e, f, g), k, w);
  }

  lemma T0Agrees(e: Word, f: Word, g: Word, h: Word, k: Word, w: Word)
    ensures Low32(T0(e, f, g, h, k, w)) == Add(Add(Add(Add(h, BigSigma1(e)), Choose(e, f, g)), k), w)
  {
    hide Low32, T0, Add, Sigma0, Sigma1, BigSigma0, BigSigma1, Ch, Choose, Maj, Majority;
    T0Sum(e, f, g, h, k, w);
    SigmasAgree(e);
    LogicAgrees(e, f, g);
  }

  lemma T1Sum(a: Word, b: Word, c: Word)
    ensures Low32(T1(a, b, c)) == Add(Low32(Sigma0(a)), Maj(a, b, c))
  {
    hide Low32, AddW, Add, Sigma0, Maj;
    Low32OfSumWord(Sigma0(a), Maj(a, b, c));
  }

  lemma T1Agrees(a: Word, b: Word, c: Word)
    ensures Low32(T1(a, b, c)) == Add(BigSigma0(a), Majority(a, b, c))
  {
    hide Low32, T1, Add, Sigma0, Sigma1, BigSigma0, BigSigma1, Ch, Choose, Maj, Majority;
    T1Sum(a, b, c);
    SigmasAgree(a);
    LogicAgrees(a, b, c);
  }

  lemma NextWAgrees(w2: Word, w7: Word, w15: Word, w16: Word)
    ensures Low32(NextW(w2, w7, w15, w16)) == Add(Add(Add(SmallSigma1(w2), w7), SmallSigma0(w15)), w16)
  {
    hide Low32, AddW, Add, Gamma0, Gamma1, SmallSigma0, SmallSigma1;
    var s := AddW(Gamma1(w2), w7 as Wide);
    Low32OfSum(Gamma1(w2), w7 as Wide);
    Low32OfSum(s, Gamma0(w15));
    Low32OfSum(AddW(s, Gamma0(w15)), w16 as Wide);
    GammasAgree(w2);
    GammasAgree(w15);
    Low32OfWord(w7);
    Low32OfWord(w16);
  }
}
