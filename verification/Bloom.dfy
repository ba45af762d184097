/**
 The NAN Bloom filter: iw/bloom.c hashes an address with four CRCs and sets four bits, and
 parse_srf of iw/nan.c does so for every address of a list.
 */
module Bloom {
  import opened Crc32Table
  import opened Wrappers

  type Byte = bv8

  // ----- crc32 and h

  /** The bit-at-a-time register after `buf`. */
  function Register(crc: bv32, buf: seq<Byte>): bv32 {
    if buf == [] then crc
    else EightSteps(Mix(Register(crc, buf[..|buf| - 1]), buf[|buf| - 1]))
  }

  method Crc32(crc: bv32, buf: seq<Byte>) returns (r: bv32)
    ensures r == Register(crc, buf)
  {
    hide EightSteps, Mix, Xor, Crc32Tab;
    r := crc;
    for i := 0 to |buf|
      invariant r == Register(crc, buf[..i])
    {
      TableStep(r, buf[i]);
      r := Xor(Crc32Tab((Mix(r, buf[i]) & 0xff) as bv8), r >> 8);
      assert buf[..i + 1][..i] == buf[..i];
    }
    assert buf[..|buf|] == buf;
  }

  /** Continuing from an intermediate register is hashing the concatenation. */
  lemma {:induction false} RegisterConcat(crc: bv32, a: seq<Byte>, b: seq<Byte>)
    ensures Register(Register(crc, a), b) == Register(crc, a + b)
  {
    hide EightSteps, Mix;
    if b == [] {
      assert a + b == a;
    } else {
      var n := |b| - 1;
      RegisterConcat(crc, a, b[..n]);
      assert (a + b)[..|a| + n] == a + b[..n];
    }
  }

  /** Different start values stay different, whatever is hashed. */
  lemma {:induction false} RegisterInjective(c: bv32, d: bv32, buf: seq<Byte>)
    requires Register(c, buf) == Register(d, buf)
    ensures c == d
  {
    hide EightSteps, Mix;
    if buf != [] {
      var init, last := buf[..|buf| - 1], buf[|buf| - 1];
      EightStepsInjective(Mix(Register(c, init), last), Mix(Register(d, init), last));
      MixInjective(Register(c, init), Register(d, init), last, last);
      RegisterInjective(c, d, init);
    }
  }

  function Low16(x: bv32): nat { (x & 0xffff) as nat }

  const ALL_ONES: bv32 := 0xFFFFFFFF

  /** The position hash number `j` gives `buf` in a filter of `m` bits. */
  function Hash(j: Byte, buf: seq<Byte>, m: nat): (k: nat)
    requires m > 0
    ensures k < m
  {
    Low16(Register(ALL_ONES, [j] + buf)) % m
  }

  method H(j: Byte, buf: seq<Byte>, m: nat) returns (k: nat)
    requires m > 0
    ensures k == Hash(j, buf, m) < m
  {
    hide Low16, Register;
    var crc := Crc32(ALL_ONES, [j]);
    RegisterConcat(ALL_ONES, [j], buf);
    crc := Crc32(crc, buf);
    k := Low16(crc) % m;
  }

  /** Before they are cut to 16 bits, the four CRCs of an address differ from one another. */
  lemma HashNumbersSeparate(i: Byte, j: Byte, buf: seq<Byte>)
    requires i != j
    ensures Register(ALL_ONES, [i] + buf) != Register(ALL_ONES, [j] + buf)
  {
    hide EightSteps, Mix;
    RegisterConcat(ALL_ONES, [i], buf);
    RegisterConcat(ALL_ONES, [j], buf);
    assert [i][..0] == [] && [j][..0] == [];
    if Register(ALL_ONES, [i] + buf) == Register(ALL_ONES, [j] + buf) {
      RegisterInjective(Register(ALL_ONES, [i]), Register(ALL_ONES, [j]), buf);
      EightStepsInjective(Mix(ALL_ONES, i), Mix(ALL_ONES, j));
      MixInjective(ALL_ONES, ALL_ONES, i, j);
    }
  }

  // ----- Bits of a byte array

  /** `1 << n` */
  function Mask(n: nat): Byte
    requires n < 8
  {
    match n
    case 0 => 0x01 case 1 => 0x02 case 2 => 0x04 case 3 => 0x08
    case 4 => 0x10 case 5 => 0x20 case 6 => 0x40 case _ => 0x80
  }

  predicate Has(x: Byte, n: nat)
    requires n < 8
  {
    x & Mask(n) != 0
  }

  predicate IsSet(bf: seq<Byte>, k: nat)
    requires k < 8 * |bf|
  {
    Has(bf[k / 8], k % 8)
  }

  /** Bit `k` has weight 2 to the k mod 8 in byte k / 8: a byte is the sum of the weights of its bits. */
  lemma ByteIsItsBits(x: Byte)
    ensures x as int == Weight(x, 0, 1) + Weight(x, 1, 2) + Weight(x, 2, 4) + Weight(x, 3, 8)
                        + Weight(x, 4, 16) + Weight(x, 5, 32) + Weight(x, 6, 64) + Weight(x, 7, 128)
  {
  }

  function Weight(x: Byte, n: nat, w: nat): nat
    requires n < 8
  {
    if Has(x, n) then w else 0
  }

  lemma OrBits(x: Byte, a: Byte, b: Byte)
    ensures a & b == 0 ==> (x | a) & b == x & b
    ensures (x | a) & a == a
  {
  }

  function Or(x: Byte, y: Byte): Byte { x | y }

  lemma MasksDisjoint(m: nat, n: nat)
    requires m < 8 && n < 8
    ensures Mask(m) != 0 && (m != n ==> Mask(m) & Mask(n) == 0)
  {
  }

  lemma HasOr(x: Byte, m: nat, n: nat)
    requires m < 8 && n < 8
    ensures Has(Or(x, Mask(m)), n) <==> m == n || Has(x, n)
  {
    hide Mask;
    OrBits(x, Mask(m), Mask(n));
    MasksDisjoint(m, n);
  }

  lemma SameBits(x: Byte, y: Byte)
    requires forall n | 0 <= n < 8 :: Has(x, n) == Has(y, n)
    ensures x == y
  {
    assert Has(x, 0) == Has(y, 0) && Has(x, 1) == Has(y, 1) && Has(x, 2) == Has(y, 2) && Has(x, 3) == Has(y, 3);
    assert Has(x, 4) == Has(y, 4) && Has(x, 5) == Has(y, 5) && Has(x, 6) == Has(y, 6) && Has(x, 7) == Has(y, 7);
    EachBit(x, y);
  }

  lemma EachBit(x: Byte, y: Byte)
    requires (x & 0x01 != 0) == (y & 0x01 != 0) && (x & 0x02 != 0) == (y & 0x02 != 0)
    requires (x & 0x04 != 0) == (y & 0x04 != 0) && (x & 0x08 != 0) == (y & 0x08 != 0)
    requires (x & 0x10 != 0) == (y & 0x10 != 0) && (x & 0x20 != 0) == (y & 0x20 != 0)
    requires (x & 0x40 != 0) == (y & 0x40 != 0) && (x & 0x80 != 0) == (y & 0x80 != 0)
    ensures x == y
  {
  }

  /** A filter is determined by which of its bits are set. */
  lemma FilterDetermined(a: seq<Byte>, b: seq<Byte>)
    requires |a| == |b| && forall k | 0 <= k < 8 * |a| :: IsSet(a, k) == IsSet(b, k)
    ensures a == b
  {
    forall i | 0 <= i < |a| ensures a[i] == b[i] {
      forall n | 0 <= n < 8 ensures Has(a[i], n) == Has(b[i], n) {
        var k := 8 * i + n;
        assert k / 8 == i && k % 8 == n;
        assert IsSet(a, k) == IsSet(b, k);
      }
      SameBits(a[i], b[i]);
    }
  }

  method SetBit(bf: array<Byte>, m: nat)
    requires m < 8 * bf.Length
    modifies bf
    ensures forall k | 0 <= k < 8 * bf.Length :: IsSet(bf[..], k) <==> k == m || old(IsSet(bf[..], k))
  {
    hide Has;
    bf[m / 8] := Or(bf[m / 8], Mask(m % 8));
    forall k | 0 <= k < 8 * bf.Length
      ensures IsSet(bf[..], k) <==> k == m || old(IsSet(bf[..], k))
    {
      HasOr(old(bf[m / 8]), m % 8, k % 8);
    }
  }

  // ----- nan_bf

  /** The filter size in bits as h receives it: a 16-bit value. */
  function Modulus(bfLen: nat): nat { 8 * bfLen % 0x1_0000 }

  /** The division in h is defined exactly when the length is no multiple of 8192. */
  lemma ModulusNonzero(bfLen: nat)
    ensures Modulus(bfLen) > 0 <==> bfLen % 8192 != 0
    ensures Modulus(bfLen) <= 8 * bfLen
  {
  }

  lemma ModulusIs(bfLen: nat)
    ensures 8 * bfLen == 0x1_0000 * (8 * bfLen / 0x1_0000) + Modulus(bfLen) && Modulus(bfLen) < 0x1_0000
  {
  }

  /** The lengths nan_bf works for: all that fit its 16-bit parameter, without those for which h divides by zero. */
  predicate Usable(bfLen: nat) { bfLen < 0x1_0000 && bfLen % 8192 != 0 }

  lemma UsableExactlyWhen(bfLen: nat)
    ensures Usable(bfLen) <==> bfLen <= 0xFFFF && Modulus(bfLen) != 0
  {
  }

  function HashNumber(idx: Byte, i: nat): Byte
    requires i < 4
  {
    (match i case 0 => 0 case 1 => 1 case 2 => 2 case _ => 3) + idx * 4
  }

  /** Four consecutive hash numbers for each index, as far as eight bits hold them. */
  lemma HashNumberIs(idx: Byte, i: nat)
    requires i < 4
    ensures HashNumber(idx, i) as int == (i + 4 * idx as int) % 0x100
  {
    TimesFour(idx);
    PlusSmall(idx, 0);
    PlusSmall(idx, 1);
    PlusSmall(idx, 2);
    PlusSmall(idx, 3);
  }

  lemma TimesFour(idx: Byte)
    ensures (idx * 4) as int == 4 * idx as int % 0x100
  {
  }

  lemma PlusSmall(idx: Byte, i: Byte)
    requires i < 4
    ensures (i + idx * 4) as int == i as int + (idx * 4) as int
  {
  }

  /** Within a call, and between indices below 64, no hash number is used twice. */
  lemma HashNumbersDiffer(idx: Byte, i: nat, jdx: Byte, j: nat)
    requires i < 4 && j < 4 && (idx == jdx || (idx < 64 && jdx < 64))
    requires HashNumber(idx, i) == HashNumber(jdx, j)
    ensures idx == jdx && i == j
  {
    hide HashNumber;
    HashNumberIs(idx, i);
    HashNumberIs(jdx, j);
    SmallBytes(idx, jdx);
    SameNumbers(idx as int, i, jdx as int, j);
  }

  lemma SmallBytes(x: Byte, y: Byte)
    ensures x < 64 ==> x as int < 64
    ensures y < 64 ==> y as int < 64
    ensures x as int == y as int ==> x == y
  {
  }

  lemma SameNumbers(m: nat, i: nat, n: nat, j: nat)
    requires i < 4 && j < 4 && (m == n || (m < 64 && n < 64)) && (i + 4 * m) % 0x100 == (j + 4 * n) % 0x100
    ensures m == n && i == j
  {
  }

  function Positions(idx: Byte, buf: seq<Byte>, m: nat): (s: set<nat>)
    requires m > 0
    ensures forall k :: k in s ==> k < m
  {
    set i | 0 <= i < 4 :: Hash(HashNumber(idx, i), buf, m)
  }

  lemma LowBits16(x: bv32)
    ensures x & 0xffff == x % 0x1_0000
  {
  }

  /** A position is the CRC over the hash number and the buffer, from all ones, cut to 16 bits. */
  lemma HashIs(j: Byte, buf: seq<Byte>, m: nat)
    requires m > 0
    ensures Hash(j, buf, m) == (Register(0xFFFFFFFF, [j] + buf) % 0x1_0000) as int % m
  {
    hide Register;
    LowBits16(Register(0xFFFFFFFF, [j] + buf));
  }

  lemma IsHashNumber(j: Byte, idx: Byte, i: nat)
    requires i < 4 && j as int == (i + 4 * idx as int) % 0x100
    ensures j == HashNumber(idx, i)
  {
    hide HashNumber;
    HashNumberIs(idx, i);
    SmallBytes(j, HashNumber(idx, i));
  }

  lemma HashNumbersAre(idx: Byte, j: seq<Byte>)
    requires |j| == 4 && forall i | 0 <= i < 4 :: j[i] as int == (i + 4 * idx as int) % 0x100
    ensures forall i | 0 <= i < 4 :: j[i] == HashNumber(idx, i)
  {
    hide HashNumber;
    forall i | 0 <= i < 4 ensures j[i] == HashNumber(idx, i) {
      IsHashNumber(j[i], idx, i);
    }
  }

  lemma PositionsOfNumbers(idx: Byte, buf: seq<Byte>, m: nat, j: seq<Byte>)
    requires m > 0 && |j| == 4 && forall i | 0 <= i < 4 :: j[i] == HashNumber(idx, i)
    ensures Positions(idx, buf, m) == {Hash(j[0], buf, m), Hash(j[1], buf, m), Hash(j[2], buf, m), Hash(j[3], buf, m)}
  {
    hide HashNumber, Hash;
  }

  /** Each index has the positions of four consecutive hash numbers. */
  lemma PositionsAre(idx: Byte, buf: seq<Byte>, m: nat, j: seq<Byte>)
    requires m > 0 && |j| == 4 && forall i | 0 <= i < 4 :: j[i] as int == (i + 4 * idx as int) % 0x100
    ensures Positions(idx, buf, m) == {Hash(j[0], buf, m), Hash(j[1], buf, m), Hash(j[2], buf, m), Hash(j[3], buf, m)}
  {
    hide HashNumber, Hash, Positions;
    HashNumbersAre(idx, j);
    PositionsOfNumbers(idx, buf, m, j);
  }

  method NanBf(idx: Byte, bf: array<Byte>, buf: seq<Byte>)
    requires Usable(bf.Length)
    modifies bf
    ensures forall k | 0 <= k < 8 * bf.Length ::
              IsSet(bf[..], k) <==> k in Positions(idx, buf, Modulus(bf.Length)) || old(IsSet(bf[..], k))
  {
    hide Hash, HashNumber, IsSet;
    ModulusNonzero(bf.Length);
    var m := Modulus(bf.Length);
    for i := 0 to 4
      invariant forall k | 0 <= k < 8 * bf.Length ::
                  IsSet(bf[..], k)
                  <==> (exists n | 0 <= n < i :: k == Hash(HashNumber(idx, n), buf, m)) || old(IsSet(bf[..], k))
    {
      var position := H(HashNumber(idx, i), buf, m);
      SetBit(bf, position);
    }
  }

  /** The positions of all buffers of a list. */
  function AllPositions(idx: Byte, bufs: seq<seq<Byte>>, m: nat): set<nat>
    requires m > 0
  {
    set buf, k | buf in bufs && k in Positions(idx, buf, m) :: k
  }

  lemma AllPositionsSnoc(idx: Byte, bufs: seq<seq<Byte>>, buf: seq<Byte>, m: nat)
    requires m > 0
    ensures AllPositions(idx, bufs + [buf], m) == AllPositions(idx, bufs, m) + Positions(idx, buf, m)
  {
    hide Positions;
  }

  /** Any sequence of calls: exactly the positions of the buffers are added, and no bit is ever cleared. */
  method NanBfForEach(idx: Byte, bf: array<Byte>, bufs: seq<seq<Byte>>)
    requires Usable(bf.Length)
    modifies bf
    ensures forall k | 0 <= k < 8 * bf.Length ::
              IsSet(bf[..], k) <==> k in AllPositions(idx, bufs, Modulus(bf.Length)) || old(IsSet(bf[..], k))
  {
    hide IsSet, Positions, AllPositions;
    ModulusNonzero(bf.Length);
    NoPositions(idx, Modulus(bf.Length));
    for i := 0 to |bufs|
      invariant forall k | 0 <= k < 8 * bf.Length ::
                  IsSet(bf[..], k) <==> k in AllPositions(idx, bufs[..i], Modulus(bf.Length)) || old(IsSet(bf[..], k))
    {
      NanBf(idx, bf, bufs[i]);
      AllPositionsSnoc(idx, bufs[..i], bufs[i], Modulus(bf.Length));
      assert bufs[..i + 1] == bufs[..i] + [bufs[i]];
    }
    assert bufs[..|bufs|] == bufs;
  }

  lemma NoPositions(idx: Byte, m: nat)
    requires m > 0
    ensures AllPositions(idx, [], m) == {}
  {
  }

  /** The receiver's test: are all bits of this buffer set? */
  predicate Matches(bf: seq<Byte>, idx: Byte, buf: seq<Byte>)
    requires Usable(|bf|)
  {
    ModulusNonzero(|bf|);
    forall k | k in Positions(idx, buf, Modulus(|bf|)) :: IsSet(bf, k)
  }

  lemma MatchesExactlyWhen(bf: seq<Byte>, idx: Byte, buf: seq<Byte>, m: nat)
    requires Usable(|bf|) && 0 < m == Modulus(|bf|) <= 8 * |bf|
    ensures Matches(bf, idx, buf) <==> forall i | 0 <= i < 4 :: IsSet(bf, Hash(HashNumber(idx, i), buf, m))
  {
    hide IsSet, Hash, HashNumber;
    forall i | 0 <= i < 4 ensures Hash(HashNumber(idx, i), buf, m) in Positions(idx, buf, m) {
    }
  }

  ghost predicate IsFilterOf(bf: seq<Byte>, idx: Byte, bufs: seq<seq<Byte>>)
    requires Usable(|bf|)
  {
    ModulusNonzero(|bf|);
    forall k | 0 <= k < 8 * |bf| :: IsSet(bf, k) <==> k in AllPositions(idx, bufs, Modulus(|bf|))
  }

  // ----- parse_srf

  type Mac = s: seq<Byte> | |s| == 6 witness [0, 0, 0, 0, 0, 0]

  const SRF_MAX_LEN := 255

  /** The filter branch of parse_srf, on addresses already split and read (None: not an address). */
  method ParseSrf(bfIdx: Byte, srfLen: nat, macs: seq<Option<Mac>>) returns (srf: Option<seq<Byte>>)
    ensures srf.Some? <==> 1 <= srfLen <= 255 && forall mac | mac in macs :: mac.Some?
    ensures srf.Some? ==> |srf.value| == srfLen && IsFilterOf(srf.value, bfIdx, Values(macs))
  {
    hide IsSet, Positions;
    if srfLen == 0 || srfLen > SRF_MAX_LEN {
      return None;
    }
    var bf := new Byte[srfLen](_ => 0);
    ZeroFilter(bf[..]);
    for i := 0 to |macs|
      invariant forall j | 0 <= j < i :: macs[j].Some?
      invariant IsFilterOf(bf[..], bfIdx, Values(macs[..i]))
    {
      if macs[i].None? {
        return None;
      }
      NanBf(bfIdx, bf, macs[i].value);
      assert macs[..i + 1][..i] == macs[..i];
      assert Values(macs[..i + 1]) == Values(macs[..i]) + [macs[i].value];
    }
    assert macs[..|macs|] == macs;
    return Some(bf[..]);
  }

  function Values(macs: seq<Option<Mac>>): (s: seq<Mac>)
    requires forall mac | mac in macs :: mac.Some?
    ensures |s| == |macs| && forall i :: 0 <= i < |s| ==> s[i] == macs[i].value
  {
    seq(|macs|, i requires 0 <= i < |macs| => macs[i].value)
  }

  lemma ZeroFilter(bf: seq<Byte>)
    requires forall i | 0 <= i < |bf| :: bf[i] == 0
    ensures forall k | 0 <= k < 8 * |bf| :: !IsSet(bf, k)
  {
    forall n | 0 <= n < 8 ensures !Has(0, n) {}
  }

  // ----- What a filter is good for

  /** No false negatives: every buffer inserted passes the receiver's test. */
  lemma ListedAddressMatches(bf: seq<Byte>, idx: Byte, bufs: seq<seq<Byte>>, buf: seq<Byte>)
    requires Usable(|bf|) && IsFilterOf(bf, idx, bufs) && buf in bufs
    ensures Matches(bf, idx, buf)
    ensures Modulus(|bf|) > 0 && forall i | 0 <= i < 4 ::
              var k := Hash(HashNumber(idx, i), buf, Modulus(|bf|)); k < 8 * |bf| && IsSet(bf, k)
  {
    hide IsSet, Hash;
    ModulusNonzero(|bf|);
    forall i | 0 <= i < 4
      ensures var k := Hash(HashNumber(idx, i), buf, Modulus(|bf|)); k < 8 * |bf| && IsSet(bf, k)
    {
      assert Hash(HashNumber(idx, i), buf, Modulus(|bf|)) in Positions(idx, buf, Modulus(|bf|));
    }
  }

  /** Order and repetition do not matter: the same buffers give the same bytes. */
  lemma OrderIrrelevant(a: seq<Byte>, b: seq<Byte>, idx: Byte, xs: seq<seq<Byte>>, ys: seq<seq<Byte>>)
    requires |a| == |b| && Usable(|a|) && IsFilterOf(a, idx, xs) && IsFilterOf(b, idx, ys)
    requires forall buf :: buf in xs <==> buf in ys
    ensures a == b
  {
    hide IsSet, Positions;
    ModulusNonzero(|a|);
    assert AllPositions(idx, xs, Modulus(|a|)) == AllPositions(idx, ys, Modulus(|a|));
    FilterDetermined(a, b);
  }

  /** Inserting more buffers only adds matches. */
  lemma MatchesGrow(a: seq<Byte>, b: seq<Byte>, idx: Byte, xs: seq<seq<Byte>>, ys: seq<seq<Byte>>, buf: seq<Byte>)
    requires |a| == |b| && Usable(|a|) && IsFilterOf(a, idx, xs) && IsFilterOf(b, idx, xs + ys)
    requires Matches(a, idx, buf)
    ensures Matches(b, idx, buf)
  {
    hide IsSet, Positions;
    ModulusNonzero(|a|);
  }

  // ----- An example

  lemma NoByte(buf: seq<Byte>)
    ensures Register(0xFFFFFFFF, buf[..0]) == 0xFFFFFFFF
  {
  }

  /** One turn of the table-driven loop: `i` is the entry looked up. */
  lemma NextByte(buf: seq<Byte>, n: nat, x: bv32, i: bv8, y: bv32)
    requires n < |buf| && Register(0xFFFFFFFF, buf[..n]) == x
    requires (Mix(x, buf[n]) & 0xff) as bv8 == i && Xor(Crc32Tab(i), x >> 8) == y
    ensures Register(0xFFFFFFFF, buf[..n + 1]) == y
  {
    hide EightSteps, Mix, Xor, Crc32Tab;
    TableStep(x, buf[n]);
    assert buf[..n + 1][..n] == buf[..n];
  }

  lemma FirstDigits(buf: seq<Byte>)
    requires |buf| == 9 && buf[..5] == [0x31, 0x32, 0x33, 0x34, 0x35]
    ensures Register(0xFFFFFFFF, buf[..5]) == 0x340ac5e3
  {
    hide Register;
    NoByte(buf);
    NextByte(buf, 0, 0xffffffff, 0xce, 0x7c231048);
    NextByte(buf, 1, 0x7c231048, 0x7a, 0xb0acbb32);
    NextByte(buf, 2, 0xb0acbb32, 0x01, 0x77b79c2d);
    NextByte(buf, 3, 0x77b79c2d, 0x19, 0x641c1f5c);
    NextByte(buf, 4, 0x641c1f5c, 0x69, 0x340ac5e3);
  }

  /** The check value of CRC-32, before its final complement: the register after the digits 1 to 9. */
  lemma CheckValue(buf: seq<Byte>)
    requires buf == [0x31, 0x32, 0x33, 0x34, 0x35, 0x36, 0x37, 0x38, 0x39]
    ensures Register(0xFFFFFFFF, buf) == 0x340BC6D9
  {
    hide Register;
    FirstDigits(buf);
    NextByte(buf, 5, 0x340ac5e3, 0xd5, 0xf68d2c9e);
    NextByte(buf, 6, 0xf68d2c9e, 0xa9, 0xaffc9660);
    NextByte(buf, 7, 0xaffc9660, 0x58, 0x651f2550);
    NextByte(buf, 8, 0x651f2550, 0x69, 0x340bc6d9);
    assert buf[..9] == buf;
  }

  lemma Register0(buf: seq<Byte>)
    requires buf == [0x00, 0x02, 0x00, 0x00, 0x00, 0x00, 0x00]
    ensures Register(0xFFFFFFFF, buf) == 0x2f5b818a
  {
    hide Register;
    NoByte(buf);
    NextByte(buf, 0, 0xffffffff, 0xff, 0x2dfd1072);
    NextByte(buf, 1, 0x2dfd1072, 0x70, 0x50288c2c);
    NextByte(buf, 2, 0x50288c2c, 0x2c, 0x3288446f);
    NextByte(buf, 3, 0x3288446f, 0x6f, 0xdd3ff48d);
    NextByte(buf, 4, 0xdd3ff48d, 0x8d, 0x93d4c069);
    NextByte(buf, 5, 0x93d4c069, 0x69, 0x34fd0d3c);
    NextByte(buf, 6, 0x34fd0d3c, 0x3c, 0x2f5b818a);
    assert buf[..7] == buf;
  }

  lemma Register1(buf: seq<Byte>)
    requires buf == [0x01, 0x02, 0x00, 0x00, 0x00, 0x00, 0x00]
    ensures Register(0xFFFFFFFF, buf) == 0x892c8a3e
  {
    hide Register;
    NoByte(buf);
    NextByte(buf, 0, 0xffffffff, 0xfe, 0x5afa20e4);
    NextByte(buf, 1, 0x5afa20e4, 0xe6, 0x4933bd6d);
    NextByte(buf, 2, 0x4933bd6d, 0x6d, 0x334a2e58);
    NextByte(buf, 3, 0x334a2e58, 0x58, 0x658393e8);
    NextByte(buf, 4, 0x658393e8, 0xe8, 0xaeb4e9d9);
    NextByte(buf, 5, 0xaeb4e9d9, 0xd9, 0xffa1de99);
    NextByte(buf, 6, 0xffa1de99, 0x99, 0x892c8a3e);
    assert buf[..7] == buf;
  }

  lemma Register2(buf: seq<Byte>)
    requires buf == [0x02, 0x02, 0x00, 0x00, 0x00, 0x00, 0x00]
    ensures Register(0xFFFFFFFF, buf) == 0xb8c490a3
  {
    hide Register;
    NoByte(buf);
    NextByte(buf, 0, 0xffffffff, 0xfd, 0xc3f3715e);
    NextByte(buf, 1, 0xc3f3715e, 0x5c, 0x621eeeae);
    NextByte(buf, 2, 0x621eeeae, 0xae, 0x310c9001);
    NextByte(buf, 3, 0x310c9001, 0x01, 0x77363c06);
    NextByte(buf, 4, 0x77363c06, 0x06, 0xe9149309);
    NextByte(buf, 5, 0xe9149309, 0x09, 0x7935ac37);
    NextByte(buf, 6, 0x7935ac37, 0x37, 0xb8c490a3);
    assert buf[..7] == buf;
  }

  lemma Register3(buf: seq<Byte>)
    requires buf == [0x03, 0x02, 0x00, 0x00, 0x00, 0x00, 0x00]
    ensures Register(0xFFFFFFFF, buf) == 0x1eb39b17
  {
    hide Register;
    NoByte(buf);
    NextByte(buf, 0, 0xffffffff, 0xfc, 0xb4f441c8);
    NextByte(buf, 1, 0xb4f441c8, 0xca, 0x7b05dfef);
    NextByte(buf, 2, 0x7b05dfef, 0xef, 0x30cefa36);
    NextByte(buf, 3, 0x30cefa36, 0x36, 0xcf8a5b63);
    NextByte(buf, 4, 0xcf8a5b63, 0x63, 0xd474bab9);
    NextByte(buf, 5, 0xd474bab9, 0xb9, 0xb2697f92);
    NextByte(buf, 6, 0xb2697f92, 0x92, 0x1eb39b17);
    assert buf[..7] == buf;
  }

  lemma CutTo32()
    ensures Low16(0x2f5b818a) % 32 == 10 && Low16(0x892c8a3e) % 32 == 30
    ensures Low16(0xb8c490a3) % 32 == 3 && Low16(0x1eb39b17) % 32 == 23
  {
  }

  lemma HashesOf(buf: seq<Byte>)
    requires buf == [0x02, 0x00, 0x00, 0x00, 0x00, 0x00]
    ensures Hash(0, buf, 32) == 10 && Hash(1, buf, 32) == 30 && Hash(2, buf, 32) == 3 && Hash(3, buf, 32) == 23
  {
    hide Register, Low16;
    Register0([0] + buf);
    Register1([1] + buf);
    Register2([2] + buf);
    Register3([3] + buf);
    CutTo32();
  }

  /** The bits nan_bf sets for 02:00:00:00:00:00 with index 0 in a filter of four bytes. */
  lemma PositionsOfOne(buf: seq<Byte>)
    requires buf == [0x02, 0x00, 0x00, 0x00, 0x00, 0x00]
    ensures Modulus(4) == 32 && Positions(0, buf, 32) == {10, 30, 3, 23}
  {
    hide Hash;
    HashesOf(buf);
    assert HashNumber(0, 0) == 0 && HashNumber(0, 1) == 1 && HashNumber(0, 2) == 2 && HashNumber(0, 3) == 3;
    assert forall k :: k in Positions(0, buf, 32) <==> exists i | 0 <= i < 4 :: k == Hash(HashNumber(0, i), buf, 32);
  }
}
