/**
 SHA-256 as FIPS 180-4 defines it, on whole messages: the constants of sections 4.2.2 and
 5.3.3, the padding of section 5.1.1, the message schedule and the rounds of section 6.2.2.
 Nothing here is incremental.
 */
module Sha256Spec {
  import opened Sha256Words

  type Byte = bv8

  const BLOCK_SIZE := 64

  // ----- Sections 4.2.2 and 5.3.3: constants, as the standard describes them

  const TWO_32 := 0x1_0000_0000
  const TWO_64 := 0x1_0000_0000_0000_0000
  const TWO_96 := 0x1_0000_0000_0000_0000_0000_0000

  /** The first 64 prime numbers. */
  function Prime(t: nat): nat
    requires t < 64
  {
    if t < 8 then
      match t {
        case 0 => 2 case 1 => 3 case 2 => 5 case 3 => 7 case 4 => 11 case 5 => 13 case 6 => 17 case _ => 19
      }
    else if t < 16 then
      match t {
        case 8 => 23 case 9 => 29 case 10 => 31 case 11 => 37 case 12 => 41 case 13 => 43 case 14 => 47 case _ => 53
      }
    else if t < 24 then
      match t {
        case 16 => 59 case 17 => 61 case 18 => 67 case 19 => 71 case 20 => 73 case 21 => 79 case 22 => 83 case _ => 89
      }
    else if t < 32 then
      match t {
        case 24 => 97 case 25 => 101 case 26 => 103 case 27 => 107
        case 28 => 109 case 29 => 113 case 30 => 127 case _ => 131
      }
    else if t < 40 then
      match t {
        case 32 => 137 case 33 => 139 case 34 => 149 case 35 => 151
        case 36 => 157 case 37 => 163 case 38 => 167 case _ => 173
      }
    else if t < 48 then
      match t {
        case 40 => 179 case 41 => 181 case 42 => 191 case 43 => 193
        case 44 => 197 case 45 => 199 case 46 => 211 case _ => 223
      }
    else if t < 56 then
      match t {
        case 48 => 227 case 49 => 229 case 50 => 233 case 51 => 239
        case 52 => 241 case 53 => 251 case 54 => 257 case _ => 263
      }
    else
      match t {
        case 56 => 269 case 57 => 271 case 58 => 277 case 59 => 281
        case 60 => 283 case 61 => 293 case 62 => 307 case _ => 311
      }
  }

  function WordOf(n: nat): Word
    requires n < TWO_32
  {
    n as Word
  }

  predicate IsCubeRoot(r: nat, n: nat) {
    r * r * r <= n < (r + 1) * (r + 1) * (r + 1)
  }

  predicate IsSquareRoot(r: nat, n: nat) {
    r * r <= n < (r + 1) * (r + 1)
  }

  ghost function CubeRoot(n: nat): (r: nat)
    ensures IsCubeRoot(r, n)
  {
    CubeRootExists(n);
    var r: nat :| IsCubeRoot(r, n);
    r
  }

  ghost function SquareRoot(n: nat): (r: nat)
    ensures IsSquareRoot(r, n)
  {
    SquareRootExists(n);
    var r: nat :| IsSquareRoot(r, n);
    r
  }

  /** The first 32 bits of the fractional part of the cube root of the t-th prime. */
  ghost function K(t: nat): (k: nat)
    requires t < 64
    ensures k < TWO_32
  {
    CubeRoot(Prime(t) * TWO_96) % TWO_32
  }

  /** The first 32 bits of the fractional part of the square root of the t-th prime. */
  ghost function H0(t: nat): (h: nat)
    requires t < 8
    ensures h < TWO_32
  {
    SquareRoot(Prime(t) * TWO_64) % TWO_32
  }

  /** The working registers a..h of section 6.2.2; also a hash value H0..H7. */
  datatype Registers = Registers(a: Word, b: Word, c: Word, d: Word, e: Word, f: Word, g: Word, h: Word)
  {
    function Words(): (s: seq<Word>)
      ensures |s| == 8
    {
      [a, b, c, d, e, f, g, h]
    }
  }

  ghost function IV(): Registers {
    Registers(WordOf(H0(0)), WordOf(H0(1)), WordOf(H0(2)), WordOf(H0(3)),
              WordOf(H0(4)), WordOf(H0(5)), WordOf(H0(6)), WordOf(H0(7)))
  }

  // ----- Section 6.2.2: one block

  function Load32(b0: Byte, b1: Byte, b2: Byte, b3: Byte): Word {
    (b0 as Word << 24) | (b1 as Word << 16) | (b2 as Word << 8) | b3 as Word
  }

  function WordAt(block: seq<Byte>, i: nat): Word
    requires 4 * i + 3 < |block|
  {
    Load32(block[4 * i], block[4 * i + 1], block[4 * i + 2], block[4 * i + 3])
  }

  function Schedule(block: seq<Byte>, t: nat): Word
    requires |block| == BLOCK_SIZE
  {
    if t < 16 then WordAt(block, t)
    else Add(Add(Add(SmallSigma1(Schedule(block, t - 2)), Schedule(block, t - 7)),
                 SmallSigma0(Schedule(block, t - 15))), Schedule(block, t - 16))
  }

  function Round(r: Registers, k: Word, w: Word): Registers {
    var t1 := Add(Add(Add(Add(r.h, BigSigma1(r.e)), Choose(r.e, r.f, r.g)), k), w);
    var t2 := Add(BigSigma0(r.a), Majority(r.a, r.b, r.c));
    Registers(Add(t1, t2), r.a, r.b, r.c, Add(r.d, t1), r.e, r.f, r.g)
  }

  /** The registers after the first `n` rounds on `block`. */
  ghost function Rounds(r: Registers, block: seq<Byte>, n: nat): Registers
    requires |block| == BLOCK_SIZE && n <= 64
  {
    if n == 0 then r else Round(Rounds(r, block, n - 1), WordOf(K(n - 1)), Schedule(block, n - 1))
  }

  function AddRegisters(r: Registers, h: Registers): Registers {
    Registers(Add(h.a, r.a), Add(h.b, r.b), Add(h.c, r.c), Add(h.d, r.d),
              Add(h.e, r.e), Add(h.f, r.f), Add(h.g, r.g), Add(h.h, r.h))
  }

  ghost function NextHash(h: Registers, block: seq<Byte>): Registers
    requires |block| == BLOCK_SIZE
  {
    AddRegisters(Rounds(h, block, 64), h)
  }

  /** The hash value H(i) after all blocks of `data`. */
  ghost function HashBlocks(data: seq<Byte>): Registers
    requires |data| % BLOCK_SIZE == 0
  {
    if data == [] then IV()
    else
      var cut := |data| - BLOCK_SIZE;
      NextHash(HashBlocks(data[..cut]), data[cut..])
  }

  // ----- Section 5.1.1: padding

  /** The byte of value `n`. */
  function ByteOf(n: nat): (b: Byte)
    requires n < 0x100
    ensures b as int == n
  {
    if n == 0 then 0 else ByteOf(n - 1) + 1
  }

  /** The low `k` bytes of `n`, most significant byte first. */
  function BigEndian(n: nat, k: nat): (s: seq<Byte>)
    ensures |s| == k
  {
    if k == 0 then [] else BigEndian(n / 0x100, k - 1) + [ByteOf(n % 0x100)]
  }

  function Zeros(n: nat): (s: seq<Byte>)
    ensures |s| == n && forall i :: 0 <= i < n ==> s[i] == 0
  {
    seq(n, _ => 0)
  }

  /** The least number of zero bytes that makes the padded message a whole number of blocks. */
  function ZeroCount(len: nat): nat { (55 - len) % BLOCK_SIZE }

  /** The length in bits, as far as 64 bits hold it. */
  function BitLength(len: nat): (n: nat)
    ensures n < TWO_64
  {
    8 * len % TWO_64
  }

  /** A one bit, zero bits and the bit length; longer messages than section 1 allows wrap the length. */
  function Padding(len: nat): seq<Byte> {
    [0x80] + Zeros(ZeroCount(len)) + BigEndian(BitLength(len), 8)
  }

  /** The padded message is the shortest whole number of blocks with room for nine more bytes. */
  function Pad(message: seq<Byte>): (p: seq<Byte>)
    ensures |p| % BLOCK_SIZE == 0 && |message| + 9 <= |p| < |message| + 9 + BLOCK_SIZE
  {
    PaddedLength(|message|);
    message + Padding(|message|)
  }

  // ----- Section 6.2: the digest

  function BytesOf(w: Word): (s: seq<Byte>)
    ensures |s| == 4
  {
    [((w >> 24) & 0xff) as Byte, ((w >> 16) & 0xff) as Byte, ((w >> 8) & 0xff) as Byte, (w & 0xff) as Byte]
  }

  function BytesOfWords(ws: seq<Word>): (s: seq<Byte>)
    ensures |s| == 4 * |ws|
  {
    if ws == [] then [] else BytesOfWords(ws[..|ws| - 1]) + BytesOf(ws[|ws| - 1])
  }

  ghost function Digest(message: seq<Byte>): (d: seq<Byte>)
    ensures |d| == 32
  {
    BytesOfWords(HashBlocks(Pad(message)).Words())
  }

  // ----- Properties

  lemma ZerosAdd(s: seq<Byte>, m: nat, n: nat)
    ensures s + Zeros(m) + Zeros(n) == s + Zeros(m + n)
  {
  }

  lemma PaddedLength(len: nat)
    ensures (len + 9 + ZeroCount(len)) % BLOCK_SIZE == 0
  {
    var q := (55 - len) / BLOCK_SIZE;
    assert len + 9 + ZeroCount(len) == BLOCK_SIZE * (1 - q);
  }

  lemma EmptyMessage()
    ensures HashBlocks([]) == IV() && BitLength(0) == 0
  {
  }

  lemma ZeroCountOfWaiting(len: nat, waiting: nat)
    requires waiting < BLOCK_SIZE && waiting <= len && (len - waiting) % BLOCK_SIZE == 0
    ensures ZeroCount(len) == if waiting < 56 then 55 - waiting else 119 - waiting
  {
  }

  /** The big-endian codecs undo each other. */
  lemma WordBytesRoundTrip(w: Word, b: seq<Byte>)
    requires |b| == 4
    ensures WordAt(BytesOf(w), 0) == w
    ensures BytesOf(WordAt(b, 0)) == b
  {
  }

  function Pow256(k: nat): nat { if k == 0 then 1 else 0x100 * Pow256(k - 1) }

  lemma {:induction false} BigEndianInjective(m: nat, n: nat, k: nat)
    requires m < Pow256(k) && n < Pow256(k)
    requires BigEndian(m, k) == BigEndian(n, k)
    ensures m == n
  {
    if k != 0 {
      var a, b := BigEndian(m, k), BigEndian(n, k);
      assert a[k - 1] == ByteOf(m % 0x100) && b[k - 1] == ByteOf(n % 0x100);
      assert a[..k - 1] == BigEndian(m / 0x100, k - 1) && b[..k - 1] == BigEndian(n / 0x100, k - 1);
      BigEndianInjective(m / 0x100, n / 0x100, k - 1);
    }
  }

  lemma PadParts(m: seq<Byte>)
    requires 8 * |m| < TWO_64
    ensures var p := Pad(m); |p| >= |m| + 8 && p[..|m|] == m && p[|p| - 8..] == BigEndian(8 * |m|, 8)
  {
    assert BitLength(|m|) == 8 * |m|;
    var front := m + [0x80] + Zeros(ZeroCount(|m|));
    assert Pad(m) == front + BigEndian(8 * |m|, 8);
  }

  lemma PaddedInjective(p: seq<Byte>, m1: seq<Byte>, m2: seq<Byte>)
    requires 8 * |m1| < TWO_64 && |m1| + 8 <= |p| && p[..|m1|] == m1 && p[|p| - 8..] == BigEndian(8 * |m1|, 8)
    requires 8 * |m2| < TWO_64 && |m2| + 8 <= |p| && p[..|m2|] == m2 && p[|p| - 8..] == BigEndian(8 * |m2|, 8)
    ensures m1 == m2
  {
    hide BigEndian;
    assert Pow256(8) == TWO_64;
    BigEndianInjective(8 * |m1|, 8 * |m2|, 8);
  }

  /** Different messages short enough for the standard never pad to the same blocks. */
  lemma PadInjective(m1: seq<Byte>, m2: seq<Byte>)
    requires 8 * |m1| < TWO_64 && 8 * |m2| < TWO_64
    requires Pad(m1) == Pad(m2)
    ensures m1 == m2
  {
    PadParts(m1);
    PadParts(m2);
    PaddedInjective(Pad(m1), m1, m2);
  }

  /** A counter that wraps at 2^64 adds up to the wrapped length. */
  lemma BitLengthAdd(m: nat, n: nat)
    requires n <= BLOCK_SIZE
    ensures (BitLength(m) + 8 * n) % TWO_64 == BitLength(m + n)
  {
  }

  lemma HashBlocksAppend(data: seq<Byte>, block: seq<Byte>)
    requires |data| % BLOCK_SIZE == 0 && |block| == BLOCK_SIZE
    ensures HashBlocks(data + block) == NextHash(HashBlocks(data), block)
  {
    assert (data + block)[..|data|] == data && (data + block)[|data|..] == block;
  }

  // ----- What the feed-forward is added to

  function Minus(x: Word, y: Word): Word { x - y }

  lemma DifferenceBits(x: Word, y: Word)
    ensures x + y - x == y && y + x - x == y
  {
  }

  lemma MinusAdd(x: Word, y: Word)
    ensures Minus(Add(x, y), x) == y && Minus(Add(y, x), x) == y
  {
    DifferenceBits(x, y);
  }

  lemma AddCancels(x: Word, y: Word, z: Word)
    requires Add(x, y) == Add(x, z) || Add(y, x) == Add(z, x)
    ensures y == z
  {
    hide Add, Minus;
    MinusAdd(x, y);
    MinusAdd(x, z);
  }

  /** A round can be taken back. */
  lemma RoundInjective(r: Registers, s: Registers, k: Word, w: Word)
    requires Round(r, k, w) == Round(s, k, w)
    ensures r == s
  {
    hide Add, BigSigma0, BigSigma1, Choose, Majority;
    var t2 := Add(BigSigma0(r.a), Majority(r.a, r.b, r.c));
    var p, q := Add(r.h, BigSigma1(r.e)), Add(s.h, BigSigma1(s.e));
    var c := Choose(r.e, r.f, r.g);
    AddCancels(t2, Add(Add(Add(p, c), k), w), Add(Add(Add(q, c), k), w));
    AddCancels(w, Add(Add(p, c), k), Add(Add(q, c), k));
    AddCancels(k, Add(p, c), Add(q, c));
    AddCancels(c, p, q);
    AddCancels(BigSigma1(r.e), r.h, s.h);
    AddCancels(Add(Add(Add(p, c), k), w), r.d, s.d);
  }

  lemma {:induction false} RoundsInjective(r: Registers, s: Registers, block: seq<Byte>, n: nat)
    requires |block| == BLOCK_SIZE && n <= 64 && Rounds(r, block, n) == Rounds(s, block, n)
    ensures r == s
  {
    hide Round, Schedule, K;
    if n > 0 {
      RoundInjective(Rounds(r, block, n - 1), Rounds(s, block, n - 1), WordOf(K(n - 1)), Schedule(block, n - 1));
      RoundsInjective(r, s, block, n - 1);
    }
  }

  function MinusRegisters(r: Registers, h: Registers): Registers {
    Registers(Minus(r.a, h.a), Minus(r.b, h.b), Minus(r.c, h.c), Minus(r.d, h.d),
              Minus(r.e, h.e), Minus(r.f, h.f), Minus(r.g, h.g), Minus(r.h, h.h))
  }

  lemma FeedForward(r: Registers, h: Registers)
    ensures MinusRegisters(AddRegisters(r, h), h) == r
  {
    hide Add, Minus;
    MinusAdd(h.a, r.a);
    MinusAdd(h.b, r.b);
    MinusAdd(h.c, r.c);
    MinusAdd(h.d, r.d);
    MinusAdd(h.e, r.e);
    MinusAdd(h.f, r.f);
    MinusAdd(h.g, r.g);
    MinusAdd(h.h, r.h);
  }

  /**
   What a block adds to the hash value is a permutation of the hash value: different hash values
   never get the same added.
   */
  lemma BlockPermutes(g: Registers, h: Registers, block: seq<Byte>)
    requires |block| == BLOCK_SIZE
    requires MinusRegisters(NextHash(g, block), g) == MinusRegisters(NextHash(h, block), h)
    ensures g == h
  {
    hide Rounds, AddRegisters, MinusRegisters;
    FeedForward(Rounds(g, block, 64), g);
    FeedForward(Rounds(h, block, 64), h);
    RoundsInjective(g, h, block, 64);
  }

  // ----- Roots exist and are unique

  lemma {:induction false} CubeRootExists(n: nat)
    ensures exists r: nat :: IsCubeRoot(r, n)
  {
    if n == 0 {
      assert IsCubeRoot(0, 0);
    } else {
      CubeRootExists(n - 1);
      var r: nat :| IsCubeRoot(r, n - 1);
      assert IsCubeRoot(if (r + 1) * (r + 1) * (r + 1) <= n then r + 1 else r, n);
    }
  }

  lemma {:induction false} SquareRootExists(n: nat)
    ensures exists r: nat :: IsSquareRoot(r, n)
  {
    if n == 0 {
      assert IsSquareRoot(0, 0);
    } else {
      SquareRootExists(n - 1);
      var r: nat :| IsSquareRoot(r, n - 1);
      assert IsSquareRoot(if (r + 1) * (r + 1) <= n then r + 1 else r, n);
    }
  }

  lemma PowersMonotone(a: nat, b: nat)
    requires a <= b
    ensures a * a <= b * b && a * a * a <= b * b * b
  {
    assert a * a <= b * b;
  }

  lemma CubeRootUnique(r: nat, s: nat, n: nat)
    requires IsCubeRoot(r, n) && IsCubeRoot(s, n)
    ensures r == s
  {
    if r < s { PowersMonotone(r + 1, s); }
    if s < r { PowersMonotone(s + 1, r); }
  }

  lemma SquareRootUnique(r: nat, s: nat, n: nat)
    requires IsSquareRoot(r, n) && IsSquareRoot(s, n)
    ensures r == s
  {
    if r < s { PowersMonotone(r + 1, s); }
    if s < r { PowersMonotone(s + 1, r); }
  }
}
