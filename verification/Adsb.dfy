/**
 The ADS-B frame of mn_wifi/aviation.py: position fields, frame layout and parity. Positions
 and altitudes are exact rationals here.
 */
module Adsb {
  import opened Gf2
  import opened Crc24
  import opened Wrappers

  type HexDigit = d: nat | d < 16

  const CPR_STEPS := 131072  // 2^17

  /** Python's int(): truncation toward zero. */
  function Trunc(x: real): int {
    if x >= 0.0 then x.Floor else -(-x).Floor
  }

  function EncodeFake(lat: real, lon: real): (int, int) {
    (Trunc((lat + 90.0) * 131072.0 / 180.0), Trunc((lon + 180.0) * 131072.0 / 360.0))
  }

  /** BitArray(uint=n, length=k), which raises when the number does not fit. */
  function UintBits(n: int, k: nat): Option<seq<Bit>> {
    if 0 <= n < Pow2(k) then Some(Bits(n, k)) else None
  }

  /** BitArray(hex=...), on digits already read as numbers. */
  function HexBits(digits: seq<HexDigit>): (s: seq<Bit>)
    ensures |s| == 4 * |digits|
  {
    if digits == [] then [] else HexBits(digits[..|digits| - 1]) + Bits(digits[|digits| - 1], 4)
  }

  function AltitudeCode(altitude: real): int { Trunc((altitude + 1000.0) / 25.0) }

  /** The message part: format, capability, address and the 58 bits of the ME field. */
  function Message(icao: seq<HexDigit>, lat: real, lon: real, altitude: real, oddFlag: int): (m: Option<seq<Bit>>)
  {
    var (latCpr, lonCpr) := EncodeFake(lat, lon);
    match (UintBits(AltitudeCode(altitude), 11), UintBits(oddFlag, 1), UintBits(latCpr, 17), UintBits(lonCpr, 17))
    case (Some(alt), Some(flag), Some(latBits), Some(lonBits)) =>
      var me := Bits(11, 5) + Bits(0, 6) + (alt + Bits(1, 1)) + flag + latBits + lonBits;
      Some(Bits(17, 5) + Bits(0, 3) + HexBits(icao) + me)
    case _ => None
  }

  /** The frame before tobytes(), and the bits tobytes() rounds it up to. */
  function Frame(msg: seq<Bit>): seq<Bit> { msg + Bits(Register(msg), 24) }

  function PadToBytes(bits: seq<Bit>): seq<Bit> { bits + Zeros((8 - |bits| % 8) % 8) }

  method BuildAdsb(icao: seq<HexDigit>, lat: real, lon: real, altitude: real, oddFlag: int)
    returns (bytes: Option<seq<Bit>>)
    ensures bytes.Some? <==> Message(icao, lat, lon, altitude, oddFlag).Some?
    ensures bytes.Some? ==> bytes.value == PadToBytes(Frame(Message(icao, lat, lon, altitude, oddFlag).value))
  {
    var msg := Message(icao, lat, lon, altitude, oddFlag);
    match msg
    case None => return None;
    case Some(m) =>
      var crc := ComputeCrc24(m);
      return Some(PadToBytes(m + Bits(crc, 24)));
  }

  // ----- When a frame is built

  lemma TruncFits(x: real, n: int)
    requires n > 0
    ensures 0 <= Trunc(x) < n <==> -1.0 < x < n as real
  {
  }

  /** The field widths accept exactly these positions, altitudes and flags; all others raise. */
  lemma BuiltExactlyWhen(icao: seq<HexDigit>, lat: real, lon: real, altitude: real, oddFlag: int)
    ensures Message(icao, lat, lon, altitude, oddFlag).Some? <==>
            && -90.0 - 180.0 / 131072.0 < lat < 90.0
            && -180.0 - 360.0 / 131072.0 < lon < 180.0
            && -1025.0 < altitude < 50200.0
            && 0 <= oddFlag < 2
  {
    FieldWidths();
    TruncFits((lat + 90.0) * 131072.0 / 180.0, CPR_STEPS);
    TruncFits((lon + 180.0) * 131072.0 / 360.0, CPR_STEPS);
    TruncFits((altitude + 1000.0) / 25.0, 2048);
  }

  lemma FieldWidths()
    ensures Pow2(1) == 2 && Pow2(3) == 8 && Pow2(4) == 16 && Pow2(5) == 32 && Pow2(6) == 64
    ensures Pow2(11) == 2048 && Pow2(17) == CPR_STEPS
  {
    assert Pow2(6) == 64 && Pow2(12) == 4096;
  }

  // ----- What a built frame says

  /** Every frame checks to zero, with or without the zero bits that complete the last byte. */
  lemma FrameChecksToZero(msg: seq<Bit>)
    ensures Register(Frame(msg)) == 0 && Register(PadToBytes(Frame(msg))) == 0
  {
    Codeword(msg, Register(msg));
    TrailingZeros(Frame(msg), (8 - |Frame(msg)| % 8) % 8);
  }

  lemma TrailingZeros(bits: seq<Bit>, n: nat)
    ensures Register(bits + Zeros(n)) == 0 <==> Register(bits) == 0
  {
    hide Register, Val;
    ValConcat(bits, Zeros(n));
    ValZeros(n);
    RegisterIsZero(bits);
    RegisterIsZero(bits + Zeros(n));
    GeneratorFacts();
    DividesShl(GENERATOR, Val(bits), n);
  }

  /** With a six-digit address the frame is 114 bits long and its fields sit at fixed places. */
  lemma FrameLayout(icao: seq<HexDigit>, lat: real, lon: real, altitude: real, oddFlag: int)
    requires |icao| == 6
    requires Message(icao, lat, lon, altitude, oddFlag).Some?
    ensures var f := Frame(Message(icao, lat, lon, altitude, oddFlag).value);
            && |f| == 114 && |PadToBytes(f)| == 120
            && Val(f[..5]) == 17 && Val(f[5..8]) == 0
            && (forall i | 0 <= i < 6 :: Val(f[8 + 4 * i..12 + 4 * i]) == icao[i])
            && Val(f[32..37]) == 11 && Val(f[37..43]) == 0
            && f[..8] == [1, 0, 0, 0, 1, 0, 0, 0] && f[32..43] == [0, 1, 0, 1, 1, 0, 0, 0, 0, 0, 0]
            && Val(f[43..54]) == AltitudeCode(altitude)
            && f[54] == 1 && f[55] == oddFlag
            && (Val(f[56..73]), Val(f[73..90])) == EncodeFake(lat, lon)
            && Val(f[90..]) == Register(f[..90])
  {
    hide Message, Frame, EncodeFake, AltitudeCode, Register, Val, HexBits, Bits;
    var (latCpr, lonCpr) := EncodeFake(lat, lon);
    var m := Message(icao, lat, lon, altitude, oddFlag).value;
    FrameSlices(icao, lat, lon, altitude, oddFlag);
    AddressDigits(icao, Frame(m));
    FirstBits(Frame(m));
    GeneratorFacts();
    ConstantFields();
    ValOfBits(AltitudeCode(altitude), 11);
    ValOfBits(latCpr, 17);
    ValOfBits(lonCpr, 17);
    ValOfBits(Register(m), 24);
    OneBit(1);
    OneBit(oddFlag);
  }

  lemma AddressDigits(icao: seq<HexDigit>, f: seq<Bit>)
    requires |icao| == 6 && |f| == 114 && f[8..32] == HexBits(icao)
    ensures forall i | 0 <= i < 6 :: Val(f[8 + 4 * i..12 + 4 * i]) == icao[i]
  {
    hide Val, HexBits;
    forall i | 0 <= i < 6 ensures Val(f[8 + 4 * i..12 + 4 * i]) == icao[i] {
      HexDigitAt(icao, i);
      SliceOfSlice(f, 8, 32, 4 * i, 4 * i + 4);
    }
  }

  lemma SliceOfSlice(f: seq<Bit>, a: nat, b: nat, c: nat, d: nat)
    requires a <= b <= |f| && c <= d <= b - a
    ensures f[a..b][c..d] == f[a + c..a + d]
  {
    var x, y := f[a..b][c..d], f[a + c..a + d];
    forall k | 0 <= k < d - c ensures x[k] == y[k] {
      assert x[k] == f[a..b][c + k] == f[a + (c + k)];
    }
  }

  /** Each digit is its four bits. */
  lemma {:induction false} HexDigitAt(digits: seq<HexDigit>, i: nat)
    requires i < |digits|
    ensures Val(HexBits(digits)[4 * i..4 * i + 4]) == digits[i]
  {
    hide Val, Bits;
    var n := |digits| - 1;
    var front, last := HexBits(digits[..n]), Bits(digits[n], 4);
    assert HexBits(digits) == front + last;
    if i < n {
      HexDigitAt(digits[..n], i);
      assert (front + last)[4 * i..4 * i + 4] == front[4 * i..4 * i + 4];
    } else {
      FieldWidths();
      ValOfBits(digits[n], 4);
      assert (front + last)[4 * i..4 * i + 4] == last;
    }
  }

  lemma FirstBits(f: seq<Bit>)
    requires |f| == 114 && f[..5] == Bits(17, 5) && f[5..8] == Bits(0, 3) && f[32..37] == Bits(11, 5)
    requires f[37..43] == Bits(0, 6)
    ensures f[..8] == [1, 0, 0, 0, 1, 0, 0, 0] && f[32..43] == [0, 1, 0, 1, 1, 0, 0, 0, 0, 0, 0]
  {
    hide Bits;
    BitsOfConstants();
    ZeroBits();
    assert f[..8] == f[..5] + f[5..8] && f[32..43] == f[32..37] + f[37..43];
  }

  lemma BitsOfConstants()
    ensures Bits(17, 5) == [1, 0, 0, 0, 1] && Bits(11, 5) == [0, 1, 0, 1, 1]
  {
  }

  lemma ZeroBits()
    ensures Bits(0, 3) == [0, 0, 0] && Bits(0, 6) == [0, 0, 0, 0, 0, 0]
  {
  }

  lemma FrameSlices(icao: seq<HexDigit>, lat: real, lon: real, altitude: real, oddFlag: int)
    requires |icao| == 6
    requires Message(icao, lat, lon, altitude, oddFlag).Some?
    ensures var (latCpr, lonCpr) := EncodeFake(lat, lon);
            var m := Message(icao, lat, lon, altitude, oddFlag).value;
            var f := Frame(m);
            && 0 <= AltitudeCode(altitude) < 0x800 && 0 <= oddFlag < 2
            && 0 <= latCpr < 0x20000 && 0 <= lonCpr < 0x20000
            && |f| == 114 && |PadToBytes(f)| == 120
            && f[..5] == Bits(17, 5) && f[5..8] == Bits(0, 3) && f[8..32] == HexBits(icao)
            && f[32..37] == Bits(11, 5) && f[37..43] == Bits(0, 6)
            && f[43..54] == Bits(AltitudeCode(altitude), 11)
            && f[54..55] == Bits(1, 1) && f[55..56] == Bits(oddFlag, 1)
            && f[56..73] == Bits(latCpr, 17) && f[73..90] == Bits(lonCpr, 17)
            && f[..90] == m && f[90..] == Bits(Register(m), 24)
  {
    hide Register, Val, HexBits, Bits, EncodeFake, AltitudeCode;
    FieldWidths();
  }

  lemma ConstantFields()
    ensures Val(Bits(17, 5)) == 17 && Val(Bits(0, 3)) == 0 && Val(Bits(11, 5)) == 11 && Val(Bits(0, 6)) == 0
  {
    hide Val, Bits;
    FieldWidths();
    ValOfBits(17, 5);
    ValOfBits(0, 3);
    ValOfBits(11, 5);
    ValOfBits(0, 6);
  }

  lemma OneBit(n: nat)
    requires n < Pow2(1)
    ensures Bits(n, 1) == [n]
  {
    assert n % 2 == n;
    assert Bits(n / 2, 0) == [];
  }

  /** And the altitude to within 25 feet. */
  lemma AltitudeRecovered(altitude: real)
    ensures altitude >= -1000.0 ==> 0.0 <= altitude - (25.0 * AltitudeCode(altitude) as real - 1000.0) < 25.0
    ensures altitude < -1000.0 ==> -25.0 < altitude - (25.0 * AltitudeCode(altitude) as real - 1000.0) <= 0.0
  {
  }

  /** A receiver reads the position back to within one step of the encoding. */
  lemma PositionRecovered(lat: real, lon: real)
    requires -90.0 <= lat < 90.0 && -180.0 <= lon < 180.0
    ensures var (latCpr, lonCpr) := EncodeFake(lat, lon);
            && 0 <= latCpr < CPR_STEPS && 0 <= lonCpr < CPR_STEPS
            && 0.0 <= lat - (latCpr as real * 180.0 / 131072.0 - 90.0) < 180.0 / 131072.0
            && 0.0 <= lon - (lonCpr as real * 360.0 / 131072.0 - 180.0) < 360.0 / 131072.0
  {
    var x, y := (lat + 90.0) * 131072.0 / 180.0, (lon + 180.0) * 131072.0 / 360.0;
    TruncFits(x, CPR_STEPS);
    TruncFits(y, CPR_STEPS);
    assert x.Floor as real <= x < x.Floor as real + 1.0;
    assert y.Floor as real <= y < y.Floor as real + 1.0;
  }
}
