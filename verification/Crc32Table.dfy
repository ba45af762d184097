/**
 The table of iw/bloom.c against the register it abbreviates: IEEE 802.3 CRC-32 in reflected
 form, one bit at a time (polynomial 0xedb88320, as in section 8 of RFC 1952).
 */
module Crc32Table {
  /** Shift one bit out; if it was a one, subtract the polynomial. */
  function BitStep(x: bv32): bv32 {
    if Odd(x) then Xor(Shift(x), 0xedb88320) else Shift(x)
  }

  predicate Odd(x: bv32) { x & 1 != 0 }

  function Shift(x: bv32): bv32 { x >> 1 }

  function EightSteps(x: bv32): bv32 {
    BitStep(BitStep(BitStep(BitStep(BitStep(BitStep(BitStep(BitStep(x))))))))
  }

  function Xor(x: bv32, y: bv32): bv32 { x ^ y }

  /** `crc ^ *p` */
  function Mix(crc: bv32, b: bv8): bv32 { crc ^ (b as bv32) }

  /** What eight steps make of the low eight bits: a sum of one constant for each bit. */
  function Basis(i: bv8): bv32 {
    (if i & 1 != 0 then 0x77073096 else 0) ^ (if i & 2 != 0 then 0xee0e612c else 0)
    ^ (if i & 4 != 0 then 0x076dc419 else 0) ^ (if i & 8 != 0 then 0x0edb8832 else 0)
    ^ (if i & 16 != 0 then 0x1db71064 else 0) ^ (if i & 32 != 0 then 0x3b6e20c8 else 0)
    ^ (if i & 64 != 0 then 0x76dc4190 else 0) ^ (if i & 128 != 0 then 0xedb88320 else 0)
  }

  // ----- crc32_tab, sixteen entries a row

  function Row0(i: bv8): (r: bv32)
    requires i <= 15
    ensures r == Basis(i)
  {
    match i {
      case 0 => 0x00000000 case 1 => 0x77073096 case 2 => 0xee0e612c case 3 => 0x990951ba
      case 4 => 0x076dc419 case 5 => 0x706af48f case 6 => 0xe963a535 case 7 => 0x9e6495a3
      case 8 => 0x0edb8832 case 9 => 0x79dcb8a4 case 10 => 0xe0d5e91e case 11 => 0x97d2d988
      case 12 => 0x09b64c2b case 13 => 0x7eb17cbd case 14 => 0xe7b82d07 case _ => 0x90bf1d91
    }
  }

  function Row1(i: bv8): (r: bv32)
    requires 16 <= i <= 31
    ensures r == Basis(i)
  {
    match i {
      case 16 => 0x1db71064 case 17 => 0x6ab020f2 case 18 => 0xf3b97148 case 19 => 0x84be41de
      case 20 => 0x1adad47d case 21 => 0x6ddde4eb case 22 => 0xf4d4b551 case 23 => 0x83d385c7
      case 24 => 0x136c9856 case 25 => 0x646ba8c0 case 26 => 0xfd62f97a case 27 => 0x8a65c9ec
      case 28 => 0x14015c4f case 29 => 0x63066cd9 case 30 => 0xfa0f3d63 case _ => 0x8d080df5
    }
  }

  function Row2(i: bv8): (r: bv32)
    requires 32 <= i <= 47
    ensures r == Basis(i)
  {
    match i {
      case 32 => 0x3b6e20c8 case 33 => 0x4c69105e case 34 => 0xd56041e4 case 35 => 0xa2677172
      case 36 => 0x3c03e4d1 case 37 => 0x4b04d447 case 38 => 0xd20d85fd case 39 => 0xa50ab56b
      case 40 => 0x35b5a8fa case 41 => 0x42b2986c case 42 => 0xdbbbc9d6 case 43 => 0xacbcf940
      case 44 => 0x32d86ce3 case 45 => 0x45df5c75 case 46 => 0xdcd60dcf case _ => 0xabd13d59
    }
  }

  function Row3(i: bv8): (r: bv32)
    requires 48 <= i <= 63
    ensures r == Basis(i)
  {
    match i {
      case 48 => 0x26d930ac case 49 => 0x51de003a case 50 => 0xc8d75180 case 51 => 0xbfd06116
      case 52 => 0x21b4f4b5 case 53 => 0x56b3c423 case 54 => 0xcfba9599 case 55 => 0xb8bda50f
      case 56 => 0x2802b89e case 57 => 0x5f058808 case 58 => 0xc60cd9b2 case 59 => 0xb10be924
      case 60 => 0x2f6f7c87 case 61 => 0x58684c11 case 62 => 0xc1611dab case _ => 0xb6662d3d
    }
  }

  function Row4(i: bv8): (r: bv32)
    requires 64 <= i <= 79
    ensures r == Basis(i)
  {
    match i {
      case 64 => 0x76dc4190 case 65 => 0x01db7106 case 66 => 0x98d220bc case 67 => 0xefd5102a
      case 68 => 0x71b18589 case 69 => 0x06b6b51f case 70 => 0x9fbfe4a5 case 71 => 0xe8b8d433
      case 72 => 0x7807c9a2 case 73 => 0x0f00f934 case 74 => 0x9609a88e case 75 => 0xe10e9818
      case 76 => 0x7f6a0dbb case 77 => 0x086d3d2d case 78 => 0x91646c97 case _ => 0xe6635c01
    }
  }

  function Row5(i: bv8): (r: bv32)
    requires 80 <= i <= 95
    ensures r == Basis(i)
  {
    match i {
      case 80 => 0x6b6b51f4 case 81 => 0x1c6c6162 case 82 => 0x856530d8 case 83 => 0xf262004e
      case 84 => 0x6c0695ed case 85 => 0x1b01a57b case 86 => 0x8208f4c1 case 87 => 0xf50fc457
      case 88 => 0x65b0d9c6 case 89 => 0x12b7e950 case 90 => 0x8bbeb8ea case 91 => 0xfcb9887c
      case 92 => 0x62dd1ddf case 93 => 0x15da2d49 case 94 => 0x8cd37cf3 case _ => 0xfbd44c65
    }
  }

  function Row6(i: bv8): (r: bv32)
    requires 96 <= i <= 111
    ensures r == Basis(i)
  {
    match i {
      case 96 => 0x4db26158 case 97 => 0x3ab551ce case 98 => 0xa3bc0074 case 99 => 0xd4bb30e2
      case 100 => 0x4adfa541 case 101 => 0x3dd895d7 case 102 => 0xa4d1c46d case 103 => 0xd3d6f4fb
      case 104 => 0x4369e96a case 105 => 0x346ed9fc case 106 => 0xad678846 case 107 => 0xda60b8d0
      case 108 => 0x44042d73 case 109 => 0x33031de5 case 110 => 0xaa0a4c5f case _ => 0xdd0d7cc9
    }
  }

  function Row7(i: bv8): (r: bv32)
    requires 112 <= i <= 127
    ensures r == Basis(i)
  {
    match i {
      case 112 => 0x5005713c case 113 => 0x270241aa case 114 => 0xbe0b1010 case 115 => 0xc90c2086
      case 116 => 0x5768b525 case 117 => 0x206f85b3 case 118 => 0xb966d409 case 119 => 0xce61e49f
      case 120 => 0x5edef90e case 121 => 0x29d9c998 case 122 => 0xb0d09822 case 123 => 0xc7d7a8b4
      case 124 => 0x59b33d17 case 125 => 0x2eb40d81 case 126 => 0xb7bd5c3b case _ => 0xc0ba6cad
    }
  }

  function Row8(i: bv8): (r: bv32)
    requires 128 <= i <= 143
    ensures r == Basis(i)
  {
    match i {
      case 128 => 0xedb88320 case 129 => 0x9abfb3b6 case 130 => 0x03b6e20c case 131 => 0x74b1d29a
      case 132 => 0xead54739 case 133 => 0x9dd277af case 134 => 0x04db2615 case 135 => 0x73dc1683
      case 136 => 0xe3630b12 case 137 => 0x94643b84 case 138 => 0x0d6d6a3e case 139 => 0x7a6a5aa8
      case 140 => 0xe40ecf0b case 141 => 0x9309ff9d case 142 => 0x0a00ae27 case _ => 0x7d079eb1
    }
  }

  function Row9(i: bv8): (r: bv32)
    requires 144 <= i <= 159
    ensures r == Basis(i)
  {
    match i {
      case 144 => 0xf00f9344 case 145 => 0x8708a3d2 case 146 => 0x1e01f268 case 147 => 0x6906c2fe
      case 148 => 0xf762575d case 149 => 0x806567cb case 150 => 0x196c3671 case 151 => 0x6e6b06e7
      case 152 => 0xfed41b76 case 153 => 0x89d32be0 case 154 => 0x10da7a5a case 155 => 0x67dd4acc
      case 156 => 0xf9b9df6f case 157 => 0x8ebeeff9 case 158 => 0x17b7be43 case _ => 0x60b08ed5
    }
  }

  function Row10(i: bv8): (r: bv32)
    requires 160 <= i <= 175
    ensures r == Basis(i)
  {
    match i {
      case 160 => 0xd6d6a3e8 case 161 => 0xa1d1937e case 162 => 0x38d8c2c4 case 163 => 0x4fdff252
      case 164 => 0xd1bb67f1 case 165 => 0xa6bc5767 case 166 => 0x3fb506dd case 167 => 0x48b2364b
      case 168 => 0xd80d2bda case 169 => 0xaf0a1b4c case 170 => 0x36034af6 case 171 => 0x41047a60
      case 172 => 0xdf60efc3 case 173 => 0xa867df55 case 174 => 0x316e8eef case _ => 0x4669be79
    }
  }

  function Row11(i: bv8): (r: bv32)
    requires 176 <= i <= 191
    ensures r == Basis(i)
  {
    match i {
      case 176 => 0xcb61b38c case 177 => 0xbc66831a case 178 => 0x256fd2a0 case 179 => 0x5268e236
      case 180 => 0xcc0c7795 case 181 => 0xbb0b4703 case 182 => 0x220216b9 case 183 => 0x5505262f
      case 184 => 0xc5ba3bbe case 185 => 0xb2bd0b28 case 186 => 0x2bb45a92 case 187 => 0x5cb36a04
      case 188 => 0xc2d7ffa7 case 189 => 0xb5d0cf31 case 190 => 0x2cd99e8b case _ => 0x5bdeae1d
    }
  }

  function Row12(i: bv8): (r: bv32)
    requires 192 <= i <= 207
    ensures r == Basis(i)
  {
    match i {
      case 192 => 0x9b64c2b0 case 193 => 0xec63f226 case 194 => 0x756aa39c case 195 => 0x026d930a
      case 196 => 0x9c0906a9 case 197 => 0xeb0e363f case 198 => 0x72076785 case 199 => 0x05005713
      case 200 => 0x95bf4a82 case 201 => 0xe2b87a14 case 202 => 0x7bb12bae case 203 => 0x0cb61b38
      case 204 => 0x92d28e9b case 205 => 0xe5d5be0d case 206 => 0x7cdcefb7 case _ => 0x0bdbdf21
    }
  }

  function Row13(i: bv8): (r: bv32)
    requires 208 <= i <= 223
    ensures r == Basis(i)
  {
    match i {
      case 208 => 0x86d3d2d4 case 209 => 0xf1d4e242 case 210 => 0x68ddb3f8 case 211 => 0x1fda836e
      case 212 => 0x81be16cd case 213 => 0xf6b9265b case 214 => 0x6fb077e1 case 215 => 0x18b74777
      case 216 => 0x88085ae6 case 217 => 0xff0f6a70 case 218 => 0x66063bca case 219 => 0x11010b5c
      case 220 => 0x8f659eff case 221 => 0xf862ae69 case 222 => 0x616bffd3 case _ => 0x166ccf45
    }
  }

  function Row14(i: bv8): (r: bv32)
    requires 224 <= i <= 239
    ensures r == Basis(i)
  {
    match i {
      case 224 => 0xa00ae278 case 225 => 0xd70dd2ee case 226 => 0x4e048354 case 227 => 0x3903b3c2
      case 228 => 0xa7672661 case 229 => 0xd06016f7 case 230 => 0x4969474d case 231 => 0x3e6e77db
      case 232 => 0xaed16a4a case 233 => 0xd9d65adc case 234 => 0x40df0b66 case 235 => 0x37d83bf0
      case 236 => 0xa9bcae53 case 237 => 0xdebb9ec5 case 238 => 0x47b2cf7f case _ => 0x30b5ffe9
    }
  }

  function Row15(i: bv8): (r: bv32)
    requires 240 <= i
    ensures r == Basis(i)
  {
    match i {
      case 240 => 0xbdbdf21c case 241 => 0xcabac28a case 242 => 0x53b39330 case 243 => 0x24b4a3a6
      case 244 => 0xbad03605 case 245 => 0xcdd70693 case 246 => 0x54de5729 case 247 => 0x23d967bf
      case 248 => 0xb3667a2e case 249 => 0xc4614ab8 case 250 => 0x5d681b02 case 251 => 0x2a6f2b94
      case 252 => 0xb40bbe37 case 253 => 0xc30c8ea1 case 254 => 0x5a05df1b case _ => 0x2d02ef8d
    }
  }

  /** crc32_tab[i] */
  function Crc32Tab(i: bv8): (r: bv32)
    ensures r == Basis(i)
  {
    if i < 16 then Row0(i)
    else if i < 32 then Row1(i)
    else if i < 48 then Row2(i)
    else if i < 64 then Row3(i)
    else if i < 80 then Row4(i)
    else if i < 96 then Row5(i)
    else if i < 112 then Row6(i)
    else if i < 128 then Row7(i)
    else if i < 144 then Row8(i)
    else if i < 160 then Row9(i)
    else if i < 176 then Row10(i)
    else if i < 192 then Row11(i)
    else if i < 208 then Row12(i)
    else if i < 224 then Row13(i)
    else if i < 240 then Row14(i)
    else Row15(i)
  }

  // ----- Eight bit steps are one table look-up

  lemma XorIs(x: bv32, y: bv32)
    ensures Xor(x, y) == x ^ y
  {
  }

  lemma ShiftBits(x: bv32, y: bv32, z: bv32)
    requires z == x ^ y
    ensures z >> 1 == (x >> 1) ^ (y >> 1)
  {
  }

  lemma ShiftLinear(x: bv32, y: bv32)
    ensures Shift(Xor(x, y)) == Xor(Shift(x), Shift(y))
  {
    hide Xor;
    XorIs(x, y);
    XorIs(Shift(x), Shift(y));
    ShiftBits(x, y, Xor(x, y));
  }

  lemma ParityBits(x: bv32, y: bv32, z: bv32)
    requires z == x ^ y
    ensures z & 1 != 0 <==> (x & 1 != 0) != (y & 1 != 0)
  {
  }

  lemma OddXor(x: bv32, y: bv32)
    ensures Odd(Xor(x, y)) <==> Odd(x) != Odd(y)
  {
    hide Xor;
    XorIs(x, y);
    ParityBits(x, y, Xor(x, y));
  }

  lemma XorAssoc(a: bv32, b: bv32, c: bv32)
    ensures Xor(Xor(a, b), c) == Xor(a, Xor(b, c))
  {
  }

  lemma XorComm(a: bv32, b: bv32)
    ensures Xor(a, b) == Xor(b, a)
  {
  }

  lemma XorCancel(a: bv32, b: bv32)
    ensures Xor(Xor(a, b), b) == a
  {
  }

  lemma Regroup(a: bv32, b: bv32, p: bv32)
    ensures Xor(Xor(a, p), Xor(b, p)) == Xor(a, b)
    ensures Xor(Xor(a, p), b) == Xor(Xor(a, b), p) && Xor(a, Xor(b, p)) == Xor(Xor(a, b), p)
  {
    hide Xor;
    XorAssoc(a, b, p);
    XorComm(a, p);
    XorAssoc(p, a, b);
    XorComm(p, Xor(a, b));
    XorAssoc(Xor(a, p), b, p);
    XorCancel(Xor(a, b), p);
  }

  lemma BitStepLinear(x: bv32, y: bv32)
    ensures BitStep(Xor(x, y)) == Xor(BitStep(x), BitStep(y))
  {
    hide Odd, Shift, Xor;
    ShiftLinear(x, y);
    OddXor(x, y);
    Regroup(Shift(x), Shift(y), 0xedb88320);
  }

  lemma EightStepsLinear(x: bv32, y: bv32)
    ensures EightSteps(Xor(x, y)) == Xor(EightSteps(x), EightSteps(y))
  {
    hide BitStep, Xor;
    var x1, y1 := BitStep(x), BitStep(y);
    var x2, y2 := BitStep(x1), BitStep(y1);
    var x3, y3 := BitStep(x2), BitStep(y2);
    var x4, y4 := BitStep(x3), BitStep(y3);
    var x5, y5 := BitStep(x4), BitStep(y4);
    var x6, y6 := BitStep(x5), BitStep(y5);
    var x7, y7 := BitStep(x6), BitStep(y6);
    BitStepLinear(x, y);
    BitStepLinear(x1, y1);
    BitStepLinear(x2, y2);
    BitStepLinear(x3, y3);
    BitStepLinear(x4, y4);
    BitStepLinear(x5, y5);
    BitStepLinear(x6, y6);
    BitStepLinear(x7, y7);
  }

  lemma EvenStep(x: bv32)
    requires x & 1 == 0
    ensures BitStep(x) == x >> 1
  {
  }

  /** Only zeros are shifted out of a register whose low eight bits are zero. */
  lemma HighSteps(x: bv32, h: bv32, h1: bv32, h2: bv32, h3: bv32, h4: bv32, h5: bv32, h6: bv32, h7: bv32)
    requires h == x & 0xffffff00 && h1 == h >> 1 && h2 == h1 >> 1 && h3 == h2 >> 1
    requires h4 == h3 >> 1 && h5 == h4 >> 1 && h6 == h5 >> 1 && h7 == h6 >> 1
    ensures h & 1 == 0 && h1 & 1 == 0 && h2 & 1 == 0 && h3 & 1 == 0
    ensures h4 & 1 == 0 && h5 & 1 == 0 && h6 & 1 == 0 && h7 & 1 == 0
    ensures h7 >> 1 == x >> 8
  {
  }

  lemma EightStepsHigh(x: bv32)
    ensures EightSteps(x & 0xffffff00) == x >> 8
  {
    hide BitStep;
    var h := x & 0xffffff00;
    var h1 := h >> 1;
    var h2 := h1 >> 1;
    var h3 := h2 >> 1;
    var h4 := h3 >> 1;
    var h5 := h4 >> 1;
    var h6 := h5 >> 1;
    var h7 := h6 >> 1;
    HighSteps(x, h, h1, h2, h3, h4, h5, h6, h7);
    EvenStep(h);
    EvenStep(h1);
    EvenStep(h2);
    EvenStep(h3);
    EvenStep(h4);
    EvenStep(h5);
    EvenStep(h6);
    EvenStep(h7);
  }

  lemma BasisConstants()
    ensures EightSteps(0) == 0
    ensures EightSteps(1) == 0x77073096 && EightSteps(2) == 0xee0e612c
    ensures EightSteps(4) == 0x076dc419 && EightSteps(8) == 0x0edb8832
    ensures EightSteps(16) == 0x1db71064 && EightSteps(32) == 0x3b6e20c8
    ensures EightSteps(64) == 0x76dc4190 && EightSteps(128) == 0xedb88320
  {
  }

  lemma LowBits(y: bv32, i: bv8)
    requires i == (y & 0xff) as bv8
    ensures y & 1 == if i & 1 != 0 then 1 else 0
    ensures y & 2 == if i & 2 != 0 then 2 else 0
    ensures y & 4 == if i & 4 != 0 then 4 else 0
    ensures y & 8 == if i & 8 != 0 then 8 else 0
    ensures y & 16 == if i & 16 != 0 then 16 else 0
    ensures y & 32 == if i & 32 != 0 then 32 else 0
    ensures y & 64 == if i & 64 != 0 then 64 else 0
    ensures y & 128 == if i & 128 != 0 then 128 else 0
  {
  }

  /** A register is the sum of its low eight bits, one by one, and the rest. */
  lemma SumOfBits(y: bv32, s1: bv32, s2: bv32, s3: bv32, s4: bv32, s5: bv32, s6: bv32, s7: bv32)
    requires s1 == (y & 1) ^ (y & 2) && s2 == s1 ^ (y & 4) && s3 == s2 ^ (y & 8) && s4 == s3 ^ (y & 16)
    requires s5 == s4 ^ (y & 32) && s6 == s5 ^ (y & 64) && s7 == s6 ^ (y & 128)
    ensures s7 ^ (y & 0xffffff00) == y
  {
  }

  lemma BasisSum(
    i: bv8, c0: bv32, c1: bv32, c2: bv32, c3: bv32, c4: bv32, c5: bv32, c6: bv32, c7: bv32,
    q1: bv32, q2: bv32, q3: bv32, q4: bv32, q5: bv32, q6: bv32, q7: bv32)
    requires c0 == if i & 1 != 0 then 0x77073096 else 0
    requires c1 == if i & 2 != 0 then 0xee0e612c else 0
    requires c2 == if i & 4 != 0 then 0x076dc419 else 0
    requires c3 == if i & 8 != 0 then 0x0edb8832 else 0
    requires c4 == if i & 16 != 0 then 0x1db71064 else 0
    requires c5 == if i & 32 != 0 then 0x3b6e20c8 else 0
    requires c6 == if i & 64 != 0 then 0x76dc4190 else 0
    requires c7 == if i & 128 != 0 then 0xedb88320 else 0
    requires q1 == c0 ^ c1 && q2 == q1 ^ c2 && q3 == q2 ^ c3 && q4 == q3 ^ c4
    requires q5 == q4 ^ c5 && q6 == q5 ^ c6 && q7 == q6 ^ c7
    ensures Basis(i) == q7
  {
  }

  lemma SumOfXor(y: bv32)
    ensures Xor(Xor(Xor(Xor(Xor(Xor(Xor(Xor(y & 1, y & 2), y & 4), y & 8), y & 16), y & 32), y & 64), y & 128),
          y & 0xffffff00) == y
  {
    hide Xor;
    var s1 := Xor(y & 1, y & 2);
    var s2 := Xor(s1, y & 4);
    var s3 := Xor(s2, y & 8);
    var s4 := Xor(s3, y & 16);
    var s5 := Xor(s4, y & 32);
    var s6 := Xor(s5, y & 64);
    var s7 := Xor(s6, y & 128);
    XorIs(y & 1, y & 2);
    XorIs(s1, y & 4);
    XorIs(s2, y & 8);
    XorIs(s3, y & 16);
    XorIs(s4, y & 32);
    XorIs(s5, y & 64);
    XorIs(s6, y & 128);
    XorIs(s7, y & 0xffffff00);
    SumOfBits(y, s1, s2, s3, s4, s5, s6, s7);
  }

  lemma EightStepsSum(y: bv32)
    ensures EightSteps(y) == Xor(Xor(Xor(Xor(Xor(Xor(Xor(Xor(EightSteps(y & 1), EightSteps(y & 2)), EightSteps(y & 4)),
      EightSteps(y & 8)), EightSteps(y & 16)), EightSteps(y & 32)), EightSteps(y & 64)), EightSteps(y & 128)), y >> 8)
  {
    hide EightSteps, Xor;
    var s1 := Xor(y & 1, y & 2);
    var s2 := Xor(s1, y & 4);
    var s3 := Xor(s2, y & 8);
    var s4 := Xor(s3, y & 16);
    var s5 := Xor(s4, y & 32);
    var s6 := Xor(s5, y & 64);
    var s7 := Xor(s6, y & 128);
    SumOfXor(y);
    EightStepsLinear(s7, y & 0xffffff00);
    EightStepsHigh(y);
    EightStepsLinear(s6, y & 128);
    EightStepsLinear(s5, y & 64);
    EightStepsLinear(s4, y & 32);
    EightStepsLinear(s3, y & 16);
    EightStepsLinear(s2, y & 8);
    EightStepsLinear(s1, y & 4);
    EightStepsLinear(y & 1, y & 2);
  }

  lemma StepsOfBit(i: bv8, y: bv32)
    requires i == (y & 0xff) as bv8
    ensures EightSteps(y & 1) == if i & 1 != 0 then 0x77073096 else 0
    ensures EightSteps(y & 2) == if i & 2 != 0 then 0xee0e612c else 0
    ensures EightSteps(y & 4) == if i & 4 != 0 then 0x076dc419 else 0
    ensures EightSteps(y & 8) == if i & 8 != 0 then 0x0edb8832 else 0
    ensures EightSteps(y & 16) == if i & 16 != 0 then 0x1db71064 else 0
    ensures EightSteps(y & 32) == if i & 32 != 0 then 0x3b6e20c8 else 0
    ensures EightSteps(y & 64) == if i & 64 != 0 then 0x76dc4190 else 0
    ensures EightSteps(y & 128) == if i & 128 != 0 then 0xedb88320 else 0
  {
    hide EightSteps;
    BasisConstants();
    LowBits(y, i);
  }

  lemma EightStepsBasis(y: bv32)
    ensures EightSteps(y) == Xor(Basis((y & 0xff) as bv8), y >> 8)
  {
    hide EightSteps, Basis, Xor;
    var i := (y & 0xff) as bv8;
    EightStepsSum(y);
    StepsOfBit(i, y);
    var c0, c1, c2, c3 := EightSteps(y & 1), EightSteps(y & 2), EightSteps(y & 4), EightSteps(y & 8);
    var c4, c5, c6, c7 := EightSteps(y & 16), EightSteps(y & 32), EightSteps(y & 64), EightSteps(y & 128);
    var q1 := Xor(c0, c1);
    var q2 := Xor(q1, c2);
    var q3 := Xor(q2, c3);
    var q4 := Xor(q3, c4);
    var q5 := Xor(q4, c5);
    var q6 := Xor(q5, c6);
    XorIs(c0, c1);
    XorIs(q1, c2);
    XorIs(q2, c3);
    XorIs(q3, c4);
    XorIs(q4, c5);
    XorIs(q5, c6);
    XorIs(q6, c7);
    BasisSum(i, c0, c1, c2, c3, c4, c5, c6, c7, q1, q2, q3, q4, q5, q6, Xor(q6, c7));
  }

  lemma MixHigh(crc: bv32, b: bv8)
    ensures Mix(crc, b) >> 8 == crc >> 8
  {
  }

  /** `crc32_tab[(crc ^ b) & 0xff] ^ (crc >> 8)` is eight steps of the bitwise register. */
  lemma TableStep(crc: bv32, b: bv8)
    ensures Xor(Crc32Tab((Mix(crc, b) & 0xff) as bv8), crc >> 8) == EightSteps(Mix(crc, b))
  {
    hide EightSteps, Basis, Xor, Crc32Tab, Mix;
    EightStepsBasis(Mix(crc, b));
    MixHigh(crc, b);
  }

  // ----- The register loses nothing

  /** The bit shifted out shows in the top bit, so a step can be taken back. */
  function UndoStep(y: bv32): bv32 {
    if TopBit(y) then BackWithOne(Xor(y, 0xedb88320)) else Back(y)
  }

  predicate TopBit(y: bv32) { y & 0x80000000 != 0 }

  function Back(y: bv32): bv32 { y << 1 }

  function BackWithOne(y: bv32): bv32 { (y << 1) | 1 }

  lemma BackOdd(x: bv32)
    requires Odd(x)
    ensures BackWithOne(Shift(x)) == x
  {
  }

  lemma BackEven(x: bv32)
    requires !Odd(x)
    ensures Back(Shift(x)) == x
  {
  }

  lemma TopOfStep(x: bv32)
    ensures TopBit(Xor(Shift(x), 0xedb88320)) && !TopBit(Shift(x))
  {
  }

  lemma UndoStepUndoes(x: bv32)
    ensures UndoStep(BitStep(x)) == x
  {
    hide Xor, Odd, Shift, TopBit, Back, BackWithOne;
    TopOfStep(x);
    if Odd(x) {
      XorCancel(Shift(x), 0xedb88320);
      BackOdd(x);
    } else {
      BackEven(x);
    }
  }

  lemma BitStepInjective(x: bv32, y: bv32)
    requires BitStep(x) == BitStep(y)
    ensures x == y
  {
    hide BitStep, UndoStep;
    UndoStepUndoes(x);
    UndoStepUndoes(y);
  }

  lemma EightStepsInjective(x: bv32, y: bv32)
    requires EightSteps(x) == EightSteps(y)
    ensures x == y
  {
    hide BitStep;
    var x1, y1 := BitStep(x), BitStep(y);
    var x2, y2 := BitStep(x1), BitStep(y1);
    var x3, y3 := BitStep(x2), BitStep(y2);
    var x4, y4 := BitStep(x3), BitStep(y3);
    var x5, y5 := BitStep(x4), BitStep(y4);
    var x6, y6 := BitStep(x5), BitStep(y5);
    var x7, y7 := BitStep(x6), BitStep(y6);
    BitStepInjective(x7, y7);
    BitStepInjective(x6, y6);
    BitStepInjective(x5, y5);
    BitStepInjective(x4, y4);
    BitStepInjective(x3, y3);
    BitStepInjective(x2, y2);
    BitStepInjective(x1, y1);
    BitStepInjective(x, y);
  }

  lemma MixInjectiveBits(c: bv32, d: bv32, a: bv8, b: bv8)
    requires c ^ (a as bv32) == d ^ (b as bv32)
    ensures (c == d) == (a == b)
  {
  }

  lemma MixInjective(c: bv32, d: bv32, a: bv8, b: bv8)
    requires Mix(c, a) == Mix(d, b)
    ensures c == d <==> a == b
  {
    MixInjectiveBits(c, d, a, b);
  }
}
