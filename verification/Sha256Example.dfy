/** A known answer: the one-block example of FIPS 180-4, the message "abc", round by round. */
module Sha256Example {
  import opened Sha256Words
  import opened Sha256Spec
  import opened Sha256

  /** The message, the one bit, zeros, and a length of 24 bits. */
  predicate IsAbc(block: seq<Byte>) {
    && |block| == BLOCK_SIZE
    && block[0] == 0x61 && block[1] == 0x62 && block[2] == 0x63 && block[3] == 0x80 && block[63] == 0x18
    && forall i | 4 <= i < 63 :: block[i] == 0
  }

  // ----- The message schedule

  lemma NextWord(block: seq<Byte>, t: nat, w2: Word, w7: Word, w15: Word, w16: Word, w: Word)
    requires IsAbc(block) && 16 <= t < 64
    requires Schedule(block, t - 2) == w2 && Schedule(block, t - 7) == w7
    requires Schedule(block, t - 15) == w15 && Schedule(block, t - 16) == w16
    requires Add(Add(Add(SmallSigma1(w2), w7), SmallSigma0(w15)), w16) == w
    ensures Schedule(block, t) == w
  {
    hide Add, SmallSigma0, SmallSigma1;
  }

  lemma Words0(block: seq<Byte>)
    requires IsAbc(block)
    ensures Schedule(block, 0) == 0x61626380 && Schedule(block, 1) == 0x00000000
    ensures Schedule(block, 2) == 0x00000000 && Schedule(block, 3) == 0x00000000
    ensures Schedule(block, 4) == 0x00000000 && Schedule(block, 5) == 0x00000000
    ensures Schedule(block, 6) == 0x00000000 && Schedule(block, 7) == 0x00000000
    ensures Schedule(block, 8) == 0x00000000 && Schedule(block, 9) == 0x00000000
    ensures Schedule(block, 10) == 0x00000000 && Schedule(block, 11) == 0x00000000
    ensures Schedule(block, 12) == 0x00000000 && Schedule(block, 13) == 0x00000000
    ensures Schedule(block, 14) == 0x00000000 && Schedule(block, 15) == 0x00000018
  {
  }

  lemma Words16(block: seq<Byte>)
    requires IsAbc(block)
    ensures Schedule(block, 16) == 0x61626380 && Schedule(block, 17) == 0x000f0000
    ensures Schedule(block, 18) == 0x7da86405 && Schedule(block, 19) == 0x600003c6
    ensures Schedule(block, 20) == 0x3e9d7b78 && Schedule(block, 21) == 0x0183fc00
    ensures Schedule(block, 22) == 0x12dcbfdb && Schedule(block, 23) == 0xe2e2c38e
  {
    hide Schedule;
    Words0(block);
    NextWord(block, 16, 0x00000000, 0x00000000, 0x00000000, 0x61626380, 0x61626380);
    NextWord(block, 17, 0x00000018, 0x00000000, 0x00000000, 0x00000000, 0x000f0000);
    NextWord(block, 18, 0x61626380, 0x00000000, 0x00000000, 0x00000000, 0x7da86405);
    NextWord(block, 19, 0x000f0000, 0x00000000, 0x00000000, 0x00000000, 0x600003c6);
    NextWord(block, 20, 0x7da86405, 0x00000000, 0x00000000, 0x00000000, 0x3e9d7b78);
    NextWord(block, 21, 0x600003c6, 0x00000000, 0x00000000, 0x00000000, 0x0183fc00);
    NextWord(block, 22, 0x3e9d7b78, 0x00000018, 0x00000000, 0x00000000, 0x12dcbfdb);
    NextWord(block, 23, 0x0183fc00, 0x61626380, 0x00000000, 0x00000000, 0xe2e2c38e);
  }

  lemma Words24(block: seq<Byte>)
    requires IsAbc(block)
    ensures Schedule(block, 24) == 0xc8215c1a && Schedule(block, 25) == 0xb73679a2
    ensures Schedule(block, 26) == 0xe5bc3909 && Schedule(block, 27) == 0x32663c5b
    ensures Schedule(block, 28) == 0x9d209d67 && Schedule(block, 29) == 0xec8726cb
    ensures Schedule(block, 30) == 0x702138a4 && Schedule(block, 31) == 0xd3b7973b
  {
    hide Schedule;
    Words0(block);
    Words16(block);
    NextWord(block, 24, 0x12dcbfdb, 0x000f0000, 0x00000000, 0x00000000, 0xc8215c1a);
    NextWord(block, 25, 0xe2e2c38e, 0x7da86405, 0x00000000, 0x00000000, 0xb73679a2);
    NextWord(block, 26, 0xc8215c1a, 0x600003c6, 0x00000000, 0x00000000, 0xe5bc3909);
    NextWord(block, 27, 0xb73679a2, 0x3e9d7b78, 0x00000000, 0x00000000, 0x32663c5b);
    NextWord(block, 28, 0xe5bc3909, 0x0183fc00, 0x00000000, 0x00000000, 0x9d209d67);
    NextWord(block, 29, 0x32663c5b, 0x12dcbfdb, 0x00000000, 0x00000000, 0xec8726cb);
    NextWord(block, 30, 0x9d209d67, 0xe2e2c38e, 0x00000018, 0x00000000, 0x702138a4);
    NextWord(block, 31, 0xec8726cb, 0xc8215c1a, 0x61626380, 0x00000018, 0xd3b7973b);
  }

  lemma Words32(block: seq<Byte>)
    requires IsAbc(block)
    ensures Schedule(block, 32) == 0x93f5997f && Schedule(block, 33) == 0x3b68ba73
    ensures Schedule(block, 34) == 0xaff4ffc1 && Schedule(block, 35) == 0xf10a5c62
    ensures Schedule(block, 36) == 0x0a8b3996 && Schedule(block, 37) == 0x72af830a
    ensures Schedule(block, 38) == 0x9409e33e && Schedule(block, 39) == 0x24641522
  {
    hide Schedule;
    Words16(block);
    Words24(block);
    NextWord(block, 32, 0x702138a4, 0xb73679a2, 0x000f0000, 0x61626380, 0x93f5997f);
    NextWord(block, 33, 0xd3b7973b, 0xe5bc3909, 0x7da86405, 0x000f0000, 0x3b68ba73);
    NextWord(block, 34, 0x93f5997f, 0x32663c5b, 0x600003c6, 0x7da86405, 0xaff4ffc1);
    NextWord(block, 35, 0x3b68ba73, 0x9d209d67, 0x3e9d7b78, 0x600003c6, 0xf10a5c62);
    NextWord(block, 36, 0xaff4ffc1, 0xec8726cb, 0x0183fc00, 0x3e9d7b78, 0x0a8b3996);
    NextWord(block, 37, 0xf10a5c62, 0x702138a4, 0x12dcbfdb, 0x0183fc00, 0x72af830a);
    NextWord(block, 38, 0x0a8b3996, 0xd3b7973b, 0xe2e2c38e, 0x12dcbfdb, 0x9409e33e);
    NextWord(block, 39, 0x72af830a, 0x93f5997f, 0xc8215c1a, 0xe2e2c38e, 0x24641522);
  }

  lemma Words40(block: seq<Byte>)
    requires IsAbc(block)
    ensures Schedule(block, 40) == 0x9f47bf94 && Schedule(block, 41) == 0xf0a64f5a
    ensures Schedule(block, 42) == 0x3e246a79 && Schedule(block, 43) == 0x27333ba3
    ensures Schedule(block, 44) == 0x0c4763f2 && Schedule(block, 45) == 0x840abf27
    ensures Schedule(block, 46) == 0x7a290d5d && Schedule(block, 47) == 0x065c43da
  {
    hide Schedule;
    Words24(block);
    Words32(block);
    NextWord(block, 40, 0x9409e33e, 0x3b68ba73, 0xb73679a2, 0xc8215c1a, 0x9f47bf94);
    NextWord(block, 41, 0x24641522, 0xaff4ffc1, 0xe5bc3909, 0xb73679a2, 0xf0a64f5a);
    NextWord(block, 42, 0x9f47bf94, 0xf10a5c62, 0x32663c5b, 0xe5bc3909, 0x3e246a79);
    NextWord(block, 43, 0xf0a64f5a, 0x0a8b3996, 0x9d209d67, 0x32663c5b, 0x27333ba3);
    NextWord(block, 44, 0x3e246a79, 0x72af830a, 0xec8726cb, 0x9d209d67, 0x0c4763f2);
    NextWord(block, 45, 0x27333ba3, 0x9409e33e, 0x702138a4, 0xec8726cb, 0x840abf27);
    NextWord(block, 46, 0x0c4763f2, 0x24641522, 0xd3b7973b, 0x702138a4, 0x7a290d5d);
    NextWord(block, 47, 0x840abf27, 0x9f47bf94, 0x93f5997f, 0xd3b7973b, 0x065c43da);
  }

  lemma Words48(block: seq<Byte>)
    requires IsAbc(block)
    ensures Schedule(block, 48) == 0xfb3e89cb && Schedule(block, 49) == 0xcc7617db
    ensures Schedule(block, 50) == 0xb9e66c34 && Schedule(block, 51) == 0xa9993667
    ensures Schedule(block, 52) == 0x84badedd && Schedule(block, 53) == 0xc21462bc
    ensures Schedule(block, 54) == 0x1487472c && Schedule(block, 55) == 0xb20f7a99
  {
    hide Schedule;
    Words32(block);
    Words40(block);
    NextWord(block, 48, 0x7a290d5d, 0xf0a64f5a, 0x3b68ba73, 0x93f5997f, 0xfb3e89cb);
    NextWord(block, 49, 0x065c43da, 0x3e246a79, 0xaff4ffc1, 0x3b68ba73, 0xcc7617db);
    NextWord(block, 50, 0xfb3e89cb, 0x27333ba3, 0xf10a5c62, 0xaff4ffc1, 0xb9e66c34);
    NextWord(block, 51, 0xcc7617db, 0x0c4763f2, 0x0a8b3996, 0xf10a5c62, 0xa9993667);
    NextWord(block, 52, 0xb9e66c34, 0x840abf27, 0x72af830a, 0x0a8b3996, 0x84badedd);
    NextWord(block, 53, 0xa9993667, 0x7a290d5d, 0x9409e33e, 0x72af830a, 0xc21462bc);
    NextWord(block, 54, 0x84badedd, 0x065c43da, 0x24641522, 0x9409e33e, 0x1487472c);
    NextWord(block, 55, 0xc21462bc, 0xfb3e89cb, 0x9f47bf94, 0x24641522, 0xb20f7a99);
  }

  lemma Words56(block: seq<Byte>)
    requires IsAbc(block)
    ensures Schedule(block, 56) == 0xef57b9cd && Schedule(block, 57) == 0xebe6b238
    ensures Schedule(block, 58) == 0x9fe3095e && Schedule(block, 59) == 0x78bc8d4b
    ensures Schedule(block, 60) == 0xa43fcf15 && Schedule(block, 61) == 0x668b2ff8
    ensures Schedule(block, 62) == 0xeeaba2cc && Schedule(block, 63) == 0x12b1edeb
  {
    hide Schedule;
    Words40(block);
    Words48(block);
    NextWord(block, 56, 0x1487472c, 0xcc7617db, 0xf0a64f5a, 0x9f47bf94, 0xef57b9cd);
    NextWord(block, 57, 0xb20f7a99, 0xb9e66c34, 0x3e246a79, 0xf0a64f5a, 0xebe6b238);
    NextWord(block, 58, 0xef57b9cd, 0xa9993667, 0x27333ba3, 0x3e246a79, 0x9fe3095e);
    NextWord(block, 59, 0xebe6b238, 0x84badedd, 0x0c4763f2, 0x27333ba3, 0x78bc8d4b);
    NextWord(block, 60, 0x9fe3095e, 0xc21462bc, 0x840abf27, 0x0c4763f2, 0xa43fcf15);
    NextWord(block, 61, 0x78bc8d4b, 0x1487472c, 0x7a290d5d, 0x840abf27, 0x668b2ff8);
    NextWord(block, 62, 0xa43fcf15, 0xb20f7a99, 0x065c43da, 0x7a290d5d, 0xeeaba2cc);
    NextWord(block, 63, 0x668b2ff8, 0xef57b9cd, 0xfb3e89cb, 0x065c43da, 0x12b1edeb);
  }

  // ----- The round constants as words

  lemma Values0()
    ensures K(0) == 0x428a2f98 && K(1) == 0x71374491
    ensures K(2) == 0xb5c0fbcf && K(3) == 0xe9b5dba5
    ensures K(4) == 0x3956c25b && K(5) == 0x59f111f1
    ensures K(6) == 0x923f82a4 && K(7) == 0xab1c5ed5
  {
    hide K;
    KTableIsK(0);
    KTableIsK(1);
    KTableIsK(2);
    KTableIsK(3);
    KTableIsK(4);
    KTableIsK(5);
    KTableIsK(6);
    KTableIsK(7);
  }

  lemma Literals0()
    ensures WordOf(0x428a2f98) == 0x428a2f98 && WordOf(0x71374491) == 0x71374491
    ensures WordOf(0xb5c0fbcf) == 0xb5c0fbcf && WordOf(0xe9b5dba5) == 0xe9b5dba5
    ensures WordOf(0x3956c25b) == 0x3956c25b && WordOf(0x59f111f1) == 0x59f111f1
    ensures WordOf(0x923f82a4) == 0x923f82a4 && WordOf(0xab1c5ed5) == 0xab1c5ed5
  {
  }

  lemma Values8()
    ensures K(8) == 0xd807aa98 && K(9) == 0x12835b01
    ensures K(10) == 0x243185be && K(11) == 0x550c7dc3
    ensures K(12) == 0x72be5d74 && K(13) == 0x80deb1fe
    ensures K(14) == 0x9bdc06a7 && K(15) == 0xc19bf174
  {
    hide K;
    KTableIsK(8);
    KTableIsK(9);
    KTableIsK(10);
    KTableIsK(11);
    KTableIsK(12);
    KTableIsK(13);
    KTableIsK(14);
    KTableIsK(15);
  }

  lemma Literals8()
    ensures WordOf(0xd807aa98) == 0xd807aa98 && WordOf(0x12835b01) == 0x12835b01
    ensures WordOf(0x243185be) == 0x243185be && WordOf(0x550c7dc3) == 0x550c7dc3
    ensures WordOf(0x72be5d74) == 0x72be5d74 && WordOf(0x80deb1fe) == 0x80deb1fe
    ensures WordOf(0x9bdc06a7) == 0x9bdc06a7 && WordOf(0xc19bf174) == 0xc19bf174
  {
  }

  lemma Values16()
    ensures K(16) == 0xe49b69c1 && K(17) == 0xefbe4786
    ensures K(18) == 0x0fc19dc6 && K(19) == 0x240ca1cc
    ensures K(20) == 0x2de92c6f && K(21) == 0x4a7484aa
    ensures K(22) == 0x5cb0a9dc && K(23) == 0x76f988da
  {
    hide K;
    KTableIsK(16);
    KTableIsK(17);
    KTableIsK(18);
    KTableIsK(19);
    KTableIsK(20);
    KTableIsK(21);
    KTableIsK(22);
    KTableIsK(23);
  }

  lemma Literals16()
    ensures WordOf(0xe49b69c1) == 0xe49b69c1 && WordOf(0xefbe4786) == 0xefbe4786
    ensures WordOf(0x0fc19dc6) == 0x0fc19dc6 && WordOf(0x240ca1cc) == 0x240ca1cc
    ensures WordOf(0x2de92c6f) == 0x2de92c6f && WordOf(0x4a7484aa) == 0x4a7484aa
    ensures WordOf(0x5cb0a9dc) == 0x5cb0a9dc && WordOf(0x76f988da) == 0x76f988da
  {
  }

  lemma Values24()
    ensures K(24) == 0x983e5152 && K(25) == 0xa831c66d
    ensures K(26) == 0xb00327c8 && K(27) == 0xbf597fc7
    ensures K(28) == 0xc6e00bf3 && K(29) == 0xd5a79147
    ensures K(30) == 0x06ca6351 && K(31) == 0x14292967
  {
    hide K;
    KTableIsK(24);
    KTableIsK(25);
    KTableIsK(26);
    KTableIsK(27);
    KTableIsK(28);
    KTableIsK(29);
    KTableIsK(30);
    KTableIsK(31);
  }

  lemma Literals24()
    ensures WordOf(0x983e5152) == 0x983e5152 && WordOf(0xa831c66d) == 0xa831c66d
    ensures WordOf(0xb00327c8) == 0xb00327c8 && WordOf(0xbf597fc7) == 0xbf597fc7
    ensures WordOf(0xc6e00bf3) == 0xc6e00bf3 && WordOf(0xd5a79147) == 0xd5a79147
    ensures WordOf(0x06ca6351) == 0x06ca6351 && WordOf(0x14292967) == 0x14292967
  {
  }

  lemma Values32()
    ensures K(32) == 0x27b70a85 && K(33) == 0x2e1b2138
    ensures K(34) == 0x4d2c6dfc && K(35) == 0x53380d13
    ensures K(36) == 0x650a7354 && K(37) == 0x766a0abb
    ensures K(38) == 0x81c2c92e && K(39) == 0x92722c85
  {
    hide K;
    KTableIsK(32);
    KTableIsK(33);
    KTableIsK(34);
    KTableIsK(35);
    KTableIsK(36);
    KTableIsK(37);
    KTableIsK(38);
    KTableIsK(39);
  }

  lemma Literals32()
    ensures WordOf(0x27b70a85) == 0x27b70a85 && WordOf(0x2e1b2138) == 0x2e1b2138
    ensures WordOf(0x4d2c6dfc) == 0x4d2c6dfc && WordOf(0x53380d13) == 0x53380d13
    ensures WordOf(0x650a7354) == 0x650a7354 && WordOf(0x766a0abb) == 0x766a0abb
    ensures WordOf(0x81c2c92e) == 0x81c2c92e && WordOf(0x92722c85) == 0x92722c85
  {
  }

  lemma Values40()
    ensures K(40) == 0xa2bfe8a1 && K(41) == 0xa81a664b
    ensures K(42) == 0xc24b8b70 && K(43) == 0xc76c51a3
    ensures K(44) == 0xd192e819 && K(45) == 0xd6990624
    ensures K(46) == 0xf40e3585 && K(47) == 0x106aa070
  {
    hide K;
    KTableIsK(40);
    KTableIsK(41);
    KTableIsK(42);
    KTableIsK(43);
    KTableIsK(44);
    KTableIsK(45);
    KTableIsK(46);
    KTableIsK(47);
  }

  lemma Literals40()
    ensures WordOf(0xa2bfe8a1) == 0xa2bfe8a1 && WordOf(0xa81a664b) == 0xa81a664b
    ensures WordOf(0xc24b8b70) == 0xc24b8b70 && WordOf(0xc76c51a3) == 0xc76c51a3
    ensures WordOf(0xd192e819) == 0xd192e819 && WordOf(0xd6990624) == 0xd6990624
    ensures WordOf(0xf40e3585) == 0xf40e3585 && WordOf(0x106aa070) == 0x106aa070
  {
  }

  lemma Values48()
    ensures K(48) == 0x19a4c116 && K(49) == 0x1e376c08
    ensures K(50) == 0x2748774c && K(51) == 0x34b0bcb5
    ensures K(52) == 0x391c0cb3 && K(53) == 0x4ed8aa4a
    ensures K(54) == 0x5b9cca4f && K(55) == 0x682e6ff3
  {
    hide K;
    KTableIsK(48);
    KTableIsK(49);
    KTableIsK(50);
    KTableIsK(51);
    KTableIsK(52);
    KTableIsK(53);
    KTableIsK(54);
    KTableIsK(55);
  }

  lemma Literals48()
    ensures WordOf(0x19a4c116) == 0x19a4c116 && WordOf(0x1e376c08) == 0x1e376c08
    ensures WordOf(0x2748774c) == 0x2748774c && WordOf(0x34b0bcb5) == 0x34b0bcb5
    ensures WordOf(0x391c0cb3) == 0x391c0cb3 && WordOf(0x4ed8aa4a) == 0x4ed8aa4a
    ensures WordOf(0x5b9cca4f) == 0x5b9cca4f && WordOf(0x682e6ff3) == 0x682e6ff3
  {
  }

  lemma Values56()
    ensures K(56) == 0x748f82ee && K(57) == 0x78a5636f
    ensures K(58) == 0x84c87814 && K(59) == 0x8cc70208
    ensures K(60) == 0x90befffa && K(61) == 0xa4506ceb
    ensures K(62) == 0xbef9a3f7 && K(63) == 0xc67178f2
  {
    hide K;
    KTableIsK(56);
    KTableIsK(57);
    KTableIsK(58);
    KTableIsK(59);
    KTableIsK(60);
    KTableIsK(61);
    KTableIsK(62);
    KTableIsK(63);
  }

  lemma Literals56()
    ensures WordOf(0x748f82ee) == 0x748f82ee && WordOf(0x78a5636f) == 0x78a5636f
    ensures WordOf(0x84c87814) == 0x84c87814 && WordOf(0x8cc70208) == 0x8cc70208
    ensures WordOf(0x90befffa) == 0x90befffa && WordOf(0xa4506ceb) == 0xa4506ceb
    ensures WordOf(0xbef9a3f7) == 0xbef9a3f7 && WordOf(0xc67178f2) == 0xc67178f2
  {
  }

  // ----- The rounds

  lemma NextRound(block: seq<Byte>, n: nat, k: Word, w: Word, a1: Word, e1: Word,
      a: Word, b: Word, c: Word, d: Word, e: Word, f: Word, g: Word, h: Word)
    requires IsAbc(block) && n < 64 && WordOf(K(n)) == k && Schedule(block, n) == w
    requires Rounds(IV(), block, n) == Registers(a, b, c, d, e, f, g, h)
    requires Round(Registers(a, b, c, d, e, f, g, h), k, w) == Registers(a1, a, b, c, e1, e, f, g)
    ensures Rounds(IV(), block, n + 1) == Registers(a1, a, b, c, e1, e, f, g)
  {
    hide Round, Schedule, IV, K;
  }

  lemma Rounds8(block: seq<Byte>)
    requires IsAbc(block)
    ensures Rounds(IV(), block, 8)
      == Registers(0x85a07b5f, 0xe5030380, 0x2b4209f5, 0x04409a6a,
                   0x0c657a79, 0x9b27a401, 0x714260ad, 0x43ada245)
  {
    hide Schedule, Rounds, IV, K, IsAbc;
    NoRounds(block);
    Words0(block);
    Values0();
    Literals0();
    NextRound(block, 0, 0x428a2f98, 0x61626380, 0x5d6aebcd, 0xfa2a4622,
              0x6a09e667, 0xbb67ae85, 0x3c6ef372, 0xa54ff53a, 0x510e527f, 0x9b05688c, 0x1f83d9ab, 0x5be0cd19);
    NextRound(block, 1, 0x71374491, 0x00000000, 0x5a6ad9ad, 0x78ce7989,
              0x5d6aebcd, 0x6a09e667, 0xbb67ae85, 0x3c6ef372, 0xfa2a4622, 0x510e527f, 0x9b05688c, 0x1f83d9ab);
    NextRound(block, 2, 0xb5c0fbcf, 0x00000000, 0xc8c347a7, 0xf92939eb,
              0x5a6ad9ad, 0x5d6aebcd, 0x6a09e667, 0xbb67ae85, 0x78ce7989, 0xfa2a4622, 0x510e527f, 0x9b05688c);
    NextRound(block, 3, 0xe9b5dba5, 0x00000000, 0xd550f666, 0x24e00850,
              0xc8c347a7, 0x5a6ad9ad, 0x5d6aebcd, 0x6a09e667, 0xf92939eb, 0x78ce7989, 0xfa2a4622, 0x510e527f);
    NextRound(block, 4, 0x3956c25b, 0x00000000, 0x04409a6a, 0x43ada245,
              0xd550f666, 0xc8c347a7, 0x5a6ad9ad, 0x5d6aebcd, 0x24e00850, 0xf92939eb, 0x78ce7989, 0xfa2a4622);
    NextRound(block, 5, 0x59f111f1, 0x00000000, 0x2b4209f5, 0x714260ad,
              0x04409a6a, 0xd550f666, 0xc8c347a7, 0x5a6ad9ad, 0x43ada245, 0x24e00850, 0xf92939eb, 0x78ce7989);
    NextRound(block, 6, 0x923f82a4, 0x00000000, 0xe5030380, 0x9b27a401,
              0x2b4209f5, 0x04409a6a, 0xd550f666, 0xc8c347a7, 0x714260ad, 0x43ada245, 0x24e00850, 0xf92939eb);
    NextRound(block, 7, 0xab1c5ed5, 0x00000000, 0x85a07b5f, 0x0c657a79,
              0xe5030380, 0x2b4209f5, 0x04409a6a, 0xd550f666, 0x9b27a401, 0x714260ad, 0x43ada245, 0x24e00850);
  }

  lemma Rounds16(block: seq<Byte>)
    requires IsAbc(block)
    ensures Rounds(IV(), block, 16)
      == Registers(0xb0fa238e, 0xc0645fde, 0xd932eb16, 0x87912990,
                   0x07590dcd, 0x0b92f20c, 0x745a48de, 0x1e578218)
  {
    hide Schedule, Rounds, IV, K, IsAbc;
    Rounds8(block);
    Words0(block);
    Values8();
    Literals8();
    NextRound(block, 8, 0xd807aa98, 0x00000000, 0x8e04ecb9, 0x32ca2d8c,
              0x85a07b5f, 0xe5030380, 0x2b4209f5, 0x04409a6a, 0x0c657a79, 0x9b27a401, 0x714260ad, 0x43ada245);
    NextRound(block, 9, 0x12835b01, 0x00000000, 0x8c87346b, 0x1cc92596,
              0x8e04ecb9, 0x85a07b5f, 0xe5030380, 0x2b4209f5, 0x32ca2d8c, 0x0c657a79, 0x9b27a401, 0x714260ad);
    NextRound(block, 10, 0x243185be, 0x00000000, 0x4798a3f4, 0x436b23e8,
              0x8c87346b, 0x8e04ecb9, 0x85a07b5f, 0xe5030380, 0x1cc92596, 0x32ca2d8c, 0x0c657a79, 0x9b27a401);
    NextRound(block, 11, 0x550c7dc3, 0x00000000, 0xf71fc5a9, 0x816fd6e9,
              0x4798a3f4, 0x8c87346b, 0x8e04ecb9, 0x85a07b5f, 0x436b23e8, 0x1cc92596, 0x32ca2d8c, 0x0c657a79);
    NextRound(block, 12, 0x72be5d74, 0x00000000, 0x87912990, 0x1e578218,
              0xf71fc5a9, 0x4798a3f4, 0x8c87346b, 0x8e04ecb9, 0x816fd6e9, 0x436b23e8, 0x1cc92596, 0x32ca2d8c);
    NextRound(block, 13, 0x80deb1fe, 0x00000000, 0xd932eb16, 0x745a48de,
              0x87912990, 0xf71fc5a9, 0x4798a3f4, 0x8c87346b, 0x1e578218, 0x816fd6e9, 0x436b23e8, 0x1cc92596);
    NextRound(block, 14, 0x9bdc06a7, 0x00000000, 0xc0645fde, 0x0b92f20c,
              0xd932eb16, 0x87912990, 0xf71fc5a9, 0x4798a3f4, 0x745a48de, 0x1e578218, 0x816fd6e9, 0x436b23e8);
    NextRound(block, 15, 0xc19bf174, 0x00000018, 0xb0fa238e, 0x07590dcd,
              0xc0645fde, 0xd932eb16, 0x87912990, 0xf71fc5a9, 0x0b92f20c, 0x745a48de, 0x1e578218, 0x816fd6e9);
  }

  lemma Rounds24(block: seq<Byte>)
    requires IsAbc(block)
    ensures Rounds(IV(), block, 24)
      == Registers(0xc5d53d8d, 0xa7a3623f, 0xc2606d6d, 0x9dc68b63,
                   0xaa47c347, 0x49f5114a, 0xe1257970, 0x8ada8930)
  {
    hide Schedule, Rounds, IV, K, IsAbc;
    Rounds16(block);
    Words16(block);
    Values16();
    Literals16();
    NextRound(block, 16, 0xe49b69c1, 0x61626380, 0x21da9a9b, 0x8034229c,
              0xb0fa238e, 0xc0645fde, 0xd932eb16, 0x87912990, 0x07590dcd, 0x0b92f20c, 0x745a48de, 0x1e578218);
    NextRound(block, 17, 0xefbe4786, 0x000f0000, 0xc2fbd9d1, 0x846ee454,
              0x21da9a9b, 0xb0fa238e, 0xc0645fde, 0xd932eb16, 0x8034229c, 0x07590dcd, 0x0b92f20c, 0x745a48de);
    NextRound(block, 18, 0x0fc19dc6, 0x7da86405, 0xfe777bbf, 0xcc899961,
              0xc2fbd9d1, 0x21da9a9b, 0xb0fa238e, 0xc0645fde, 0x846ee454, 0x8034229c, 0x07590dcd, 0x0b92f20c);
    NextRound(block, 19, 0x240ca1cc, 0x600003c6, 0xe1f20c33, 0xb0638179,
              0xfe777bbf, 0xc2fbd9d1, 0x21da9a9b, 0xb0fa238e, 0xcc899961, 0x846ee454, 0x8034229c, 0x07590dcd);
    NextRound(block, 20, 0x2de92c6f, 0x3e9d7b78, 0x9dc68b63, 0x8ada8930,
              0xe1f20c33, 0xfe777bbf, 0xc2fbd9d1, 0x21da9a9b, 0xb0638179, 0xcc899961, 0x846ee454, 0x8034229c);
    NextRound(block, 21, 0x4a7484aa, 0x0183fc00, 0xc2606d6d, 0xe1257970,
              0x9dc68b63, 0xe1f20c33, 0xfe777bbf, 0xc2fbd9d1, 0x8ada8930, 0xb0638179, 0xcc899961, 0x846ee454);
    NextRound(block, 22, 0x5cb0a9dc, 0x12dcbfdb, 0xa7a3623f, 0x49f5114a,
              0xc2606d6d, 0x9dc68b63, 0xe1f20c33, 0xfe777bbf, 0xe1257970, 0x8ada8930, 0xb0638179, 0xcc899961);
    NextRound(block, 23, 0x76f988da, 0xe2e2c38e, 0xc5d53d8d, 0xaa47c347,
              0xa7a3623f, 0xc2606d6d, 0x9dc68b63, 0xe1f20c33, 0x49f5114a, 0xe1257970, 0x8ada8930, 0xb0638179);
  }

  lemma Rounds32(block: seq<Byte>)
    requires IsAbc(block)
    ensures Rounds(IV(), block, 32)
      == Registers(0x73b33bf5, 0xea992a22, 0xa0060b30, 0x363482c9,
                   0xba591112, 0x0109ab3a, 0xade79437, 0x6112a3b7)
  {
    hide Schedule, Rounds, IV, K, IsAbc;
    Rounds24(block);
    Words24(block);
    Values24();
    Literals24();
    NextRound(block, 24, 0x983e5152, 0xc8215c1a, 0x1c2c2838, 0x2823ef91,
              0xc5d53d8d, 0xa7a3623f, 0xc2606d6d, 0x9dc68b63, 0xaa47c347, 0x49f5114a, 0xe1257970, 0x8ada8930);
    NextRound(block, 25, 0xa831c66d, 0xb73679a2, 0xcde8037d, 0x14383d8e,
              0x1c2c2838, 0xc5d53d8d, 0xa7a3623f, 0xc2606d6d, 0x2823ef91, 0xaa47c347, 0x49f5114a, 0xe1257970);
    NextRound(block, 26, 0xb00327c8, 0xe5bc3909, 0xb62ec4bc, 0xc74c6516,
              0xcde8037d, 0x1c2c2838, 0xc5d53d8d, 0xa7a3623f, 0x14383d8e, 0x2823ef91, 0xaa47c347, 0x49f5114a);
    NextRound(block, 27, 0xbf597fc7, 0x32663c5b, 0x77d37528, 0xedffbff8,
              0xb62ec4bc, 0xcde8037d, 0x1c2c2838, 0xc5d53d8d, 0xc74c6516, 0x14383d8e, 0x2823ef91, 0xaa47c347);
    NextRound(block, 28, 0xc6e00bf3, 0x9d209d67, 0x363482c9, 0x6112a3b7,
              0x77d37528, 0xb62ec4bc, 0xcde8037d, 0x1c2c2838, 0xedffbff8, 0xc74c6516, 0x14383d8e, 0x2823ef91);
    NextRound(block, 29, 0xd5a79147, 0xec8726cb, 0xa0060b30, 0xade79437,
              0x363482c9, 0x77d37528, 0xb62ec4bc, 0xcde8037d, 0x6112a3b7, 0xedffbff8, 0xc74c6516, 0x14383d8e);
    NextRound(block, 30, 0x06ca6351, 0x702138a4, 0xea992a22, 0x0109ab3a,
              0xa0060b30, 0x363482c9, 0x77d37528, 0xb62ec4bc, 0xade79437, 0x6112a3b7, 0xedffbff8, 0xc74c6516);
    NextRound(block, 31, 0x14292967, 0xd3b7973b, 0x73b33bf5, 0xba591112,
              0xea992a22, 0xa0060b30, 0x363482c9, 0x77d37528, 0x0109ab3a, 0xade79437, 0x6112a3b7, 0xedffbff8);
  }

  lemma Rounds40(block: seq<Byte>)
    requires IsAbc(block)
    ensures Rounds(IV(), block, 40)
      == Registers(0x79ea687a, 0x6dc57a8a, 0x34df1604, 0x41a65cb1,
                   0x1efbc0a0, 0xf0781bc8, 0xa507a53d, 0x0772a26b)
  {
    hide Schedule, Rounds, IV, K, IsAbc;
    Rounds32(block);
    Words32(block);
    Values32();
    Literals32();
    NextRound(block, 32, 0x27b70a85, 0x93f5997f, 0x98e12507, 0x9cd9f5f6,
              0x73b33bf5, 0xea992a22, 0xa0060b30, 0x363482c9, 0xba591112, 0x0109ab3a, 0xade79437, 0x6112a3b7);
    NextRound(block, 33, 0x2e1b2138, 0x3b68ba73, 0xfe604df5, 0x59249dd3,
              0x98e12507, 0x73b33bf5, 0xea992a22, 0xa0060b30, 0x9cd9f5f6, 0xba591112, 0x0109ab3a, 0xade79437);
    NextRound(block, 34, 0x4d2c6dfc, 0xaff4ffc1, 0xa9a7738c, 0x085f3833,
              0xfe604df5, 0x98e12507, 0x73b33bf5, 0xea992a22, 0x59249dd3, 0x9cd9f5f6, 0xba591112, 0x0109ab3a);
    NextRound(block, 35, 0x53380d13, 0xf10a5c62, 0x65a0cfe4, 0xf4b002d6,
              0xa9a7738c, 0xfe604df5, 0x98e12507, 0x73b33bf5, 0x085f3833, 0x59249dd3, 0x9cd9f5f6, 0xba591112);
    NextRound(block, 36, 0x650a7354, 0x0a8b3996, 0x41a65cb1, 0x0772a26b,
              0x65a0cfe4, 0xa9a7738c, 0xfe604df5, 0x98e12507, 0xf4b002d6, 0x085f3833, 0x59249dd3, 0x9cd9f5f6);
    NextRound(block, 37, 0x766a0abb, 0x72af830a, 0x34df1604, 0xa507a53d,
              0x41a65cb1, 0x65a0cfe4, 0xa9a7738c, 0xfe604df5, 0x0772a26b, 0xf4b002d6, 0x085f3833, 0x59249dd3);
    NextRound(block, 38, 0x81c2c92e, 0x9409e33e, 0x6dc57a8a, 0xf0781bc8,
              0x34df1604, 0x41a65cb1, 0x65a0cfe4, 0xa9a7738c, 0xa507a53d, 0x0772a26b, 0xf4b002d6, 0x085f3833);
    NextRound(block, 39, 0x92722c85, 0x24641522, 0x79ea687a, 0x1efbc0a0,
              0x6dc57a8a, 0x34df1604, 0x41a65cb1, 0x65a0cfe4, 0xf0781bc8, 0xa507a53d, 0x0772a26b, 0xf4b002d6);
  }

  lemma Rounds48(block: seq<Byte>)
    requires IsAbc(block)
    ensures Rounds(IV(), block, 48)
      == Registers(0x4172328d, 0xa14c14b0, 0x72ab4b91, 0x26628815,
                   0xfecf0bc6, 0xd57b94a9, 0xb7755da1, 0xa80f11f0)
  {
    hide Schedule, Rounds, IV, K, IsAbc;
    Rounds40(block);
    Words40(block);
    Values40();
    Literals40();
    NextRound(block, 40, 0xa2bfe8a1, 0x9f47bf94, 0xd6670766, 0x26352d63,
              0x79ea687a, 0x6dc57a8a, 0x34df1604, 0x41a65cb1, 0x1efbc0a0, 0xf0781bc8, 0xa507a53d, 0x0772a26b);
    NextRound(block, 41, 0xa81a664b, 0xf0a64f5a, 0xdf46652f, 0x838b2711,
              0xd6670766, 0x79ea687a, 0x6dc57a8a, 0x34df1604, 0x26352d63, 0x1efbc0a0, 0xf0781bc8, 0xa507a53d);
    NextRound(block, 42, 0xc24b8b70, 0x3e246a79, 0x17aa0dfe, 0xdecd4715,
              0xdf46652f, 0xd6670766, 0x79ea687a, 0x6dc57a8a, 0x838b2711, 0x26352d63, 0x1efbc0a0, 0xf0781bc8);
    NextRound(block, 43, 0xc76c51a3, 0x27333ba3, 0x9d4baf93, 0xfda24c2e,
              0x17aa0dfe, 0xdf46652f, 0xd6670766, 0x79ea687a, 0xdecd4715, 0x838b2711, 0x26352d63, 0x1efbc0a0);
    NextRound(block, 44, 0xd192e819, 0x0c4763f2, 0x26628815, 0xa80f11f0,
              0x9d4baf93, 0x17aa0dfe, 0xdf46652f, 0xd6670766, 0xfda24c2e, 0xdecd4715, 0x838b2711, 0x26352d63);
    NextRound(block, 45, 0xd6990624, 0x840abf27, 0x72ab4b91, 0xb7755da1,
              0x26628815, 0x9d4baf93, 0x17aa0dfe, 0xdf46652f, 0xa80f11f0, 0xfda24c2e, 0xdecd4715, 0x838b2711);
    NextRound(block, 46, 0xf40e3585, 0x7a290d5d, 0xa14c14b0, 0xd57b94a9,
              0x72ab4b91, 0x26628815, 0x9d4baf93, 0x17aa0dfe, 0xb7755da1, 0xa80f11f0, 0xfda24c2e, 0xdecd4715);
    NextRound(block, 47, 0x106aa070, 0x065c43da, 0x4172328d, 0xfecf0bc6,
              0xa14c14b0, 0x72ab4b91, 0x26628815, 0x9d4baf93, 0xd57b94a9, 0xb7755da1, 0xa80f11f0, 0xfda24c2e);
  }

  lemma Rounds56(block: seq<Byte>)
    requires IsAbc(block)
    ensures Rounds(IV(), block, 56)
      == Registers(0x38cc9913, 0x3ec45cdb, 0xf5702fdb, 0x101fd28f,
                   0x54cb266b, 0xe50e1b4f, 0x9f4787c3, 0x529e7d00)
  {
    hide Schedule, Rounds, IV, K, IsAbc;
    Rounds48(block);
    Words48(block);
    Values48();
    Literals48();
    NextRound(block, 48, 0x19a4c116, 0xfb3e89cb, 0x05757ceb, 0xbd714038,
              0x4172328d, 0xa14c14b0, 0x72ab4b91, 0x26628815, 0xfecf0bc6, 0xd57b94a9, 0xb7755da1, 0xa80f11f0);
    NextRound(block, 49, 0x1e376c08, 0xcc7617db, 0xf11bfaa8, 0x6e5c390c,
              0x05757ceb, 0x4172328d, 0xa14c14b0, 0x72ab4b91, 0xbd714038, 0xfecf0bc6, 0xd57b94a9, 0xb7755da1);
    NextRound(block, 50, 0x2748774c, 0xb9e66c34, 0x7a0508a1, 0x52f1ccf7,
              0xf11bfaa8, 0x05757ceb, 0x4172328d, 0xa14c14b0, 0x6e5c390c, 0xbd714038, 0xfecf0bc6, 0xd57b94a9);
    NextRound(block, 51, 0x34b0bcb5, 0xa9993667, 0x886e7a22, 0x49231c1e,
              0x7a0508a1, 0xf11bfaa8, 0x05757ceb, 0x4172328d, 0x52f1ccf7, 0x6e5c390c, 0xbd714038, 0xfecf0bc6);
    NextRound(block, 52, 0x391c0cb3, 0x84badedd, 0x101fd28f, 0x529e7d00,
              0x886e7a22, 0x7a0508a1, 0xf11bfaa8, 0x05757ceb, 0x49231c1e, 0x52f1ccf7, 0x6e5c390c, 0xbd714038);
    NextRound(block, 53, 0x4ed8aa4a, 0xc21462bc, 0xf5702fdb, 0x9f4787c3,
              0x101fd28f, 0x886e7a22, 0x7a0508a1, 0xf11bfaa8, 0x529e7d00, 0x49231c1e, 0x52f1ccf7, 0x6e5c390c);
    NextRound(block, 54, 0x5b9cca4f, 0x1487472c, 0x3ec45cdb, 0xe50e1b4f,
              0xf5702fdb, 0x101fd28f, 0x886e7a22, 0x7a0508a1, 0x9f4787c3, 0x529e7d00, 0x49231c1e, 0x52f1ccf7);
    NextRound(block, 55, 0x682e6ff3, 0xb20f7a99, 0x38cc9913, 0x54cb266b,
              0x3ec45cdb, 0xf5702fdb, 0x101fd28f, 0x886e7a22, 0xe50e1b4f, 0x9f4787c3, 0x529e7d00, 0x49231c1e);
  }

  lemma Rounds64(block: seq<Byte>)
    requires IsAbc(block)
    ensures Rounds(IV(), block, 64)
      == Registers(0x506e3058, 0xd39a2165, 0x04d24d6c, 0xb85e2ce9,
                   0x5ef50f24, 0xfb121210, 0x948d25b6, 0x961f4894)
  {
    hide Schedule, Rounds, IV, K, IsAbc;
    Rounds56(block);
    Words56(block);
    Values56();
    Literals56();
    NextRound(block, 56, 0x748f82ee, 0xef57b9cd, 0xfcd1887b, 0x9b5e906c,
              0x38cc9913, 0x3ec45cdb, 0xf5702fdb, 0x101fd28f, 0x54cb266b, 0xe50e1b4f, 0x9f4787c3, 0x529e7d00);
    NextRound(block, 57, 0x78a5636f, 0xebe6b238, 0xc062d46f, 0x7e44008e,
              0xfcd1887b, 0x38cc9913, 0x3ec45cdb, 0xf5702fdb, 0x9b5e906c, 0x54cb266b, 0xe50e1b4f, 0x9f4787c3);
    NextRound(block, 58, 0x84c87814, 0x9fe3095e, 0xffb70472, 0x6d83bfc6,
              0xc062d46f, 0xfcd1887b, 0x38cc9913, 0x3ec45cdb, 0x7e44008e, 0x9b5e906c, 0x54cb266b, 0xe50e1b4f);
    NextRound(block, 59, 0x8cc70208, 0x78bc8d4b, 0xb6ae8fff, 0xb21bad3d,
              0xffb70472, 0xc062d46f, 0xfcd1887b, 0x38cc9913, 0x6d83bfc6, 0x7e44008e, 0x9b5e906c, 0x54cb266b);
    NextRound(block, 60, 0x90befffa, 0xa43fcf15, 0xb85e2ce9, 0x961f4894,
              0xb6ae8fff, 0xffb70472, 0xc062d46f, 0xfcd1887b, 0xb21bad3d, 0x6d83bfc6, 0x7e44008e, 0x9b5e906c);
    NextRound(block, 61, 0xa4506ceb, 0x668b2ff8, 0x04d24d6c, 0x948d25b6,
              0xb85e2ce9, 0xb6ae8fff, 0xffb70472, 0xc062d46f, 0x961f4894, 0xb21bad3d, 0x6d83bfc6, 0x7e44008e);
    NextRound(block, 62, 0xbef9a3f7, 0xeeaba2cc, 0xd39a2165, 0xfb121210,
              0x04d24d6c, 0xb85e2ce9, 0xb6ae8fff, 0xffb70472, 0x948d25b6, 0x961f4894, 0xb21bad3d, 0x6d83bfc6);
    NextRound(block, 63, 0xc67178f2, 0x12b1edeb, 0x506e3058, 0x5ef50f24,
              0xd39a2165, 0x04d24d6c, 0xb85e2ce9, 0xb6ae8fff, 0xfb121210, 0x948d25b6, 0x961f4894, 0xb21bad3d);
  }

  lemma NoRounds(block: seq<Byte>)
    requires IsAbc(block)
    ensures Rounds(IV(), block, 0)
      == Registers(0x6a09e667, 0xbb67ae85, 0x3c6ef372, 0xa54ff53a,
                   0x510e527f, 0x9b05688c, 0x1f83d9ab, 0x5be0cd19)
  {
    hide IV;
    InitialState();
  }

  // ----- The digest

  lemma FedForward()
    ensures AddRegisters(Registers(0x506e3058, 0xd39a2165, 0x04d24d6c, 0xb85e2ce9,
                                   0x5ef50f24, 0xfb121210, 0x948d25b6, 0x961f4894),
                         Registers(0x6a09e667, 0xbb67ae85, 0x3c6ef372, 0xa54ff53a,
                                   0x510e527f, 0x9b05688c, 0x1f83d9ab, 0x5be0cd19))
      == Registers(0xba7816bf, 0x8f01cfea, 0x414140de, 0x5dae2223,
                   0xb00361a3, 0x96177a9c, 0xb410ff61, 0xf20015ad)
  {
  }

  lemma PaddedAbc()
    ensures IsAbc(Pad([0x61, 0x62, 0x63]))
  {
    hide BigEndian;
    LengthBytes();
    assert Pad([0x61, 0x62, 0x63]) == [0x61, 0x62, 0x63] + ([0x80] + Zeros(52) + BigEndian(24, 8));
  }

  lemma LengthBytes()
    ensures BigEndian(24, 8) == [0, 0, 0, 0, 0, 0, 0, 24]
  {
    hide BigEndian, ByteOf;
    SmallBytes();
    ZeroBytes(7);
    LastByte(24, 7);
  }

  lemma LastByte(n: nat, k: nat)
    requires n < 0x100
    ensures BigEndian(n, k + 1) == BigEndian(0, k) + [ByteOf(n)]
  {
    hide BigEndian, ByteOf;
    OneByte(n, k);
    NoQuotient(n);
  }

  lemma OneByte(n: nat, k: nat)
    ensures BigEndian(n, k + 1) == BigEndian(n / 0x100, k) + [ByteOf(n % 0x100)]
  {
    hide ByteOf;
  }

  lemma NoQuotient(n: nat)
    requires n < 0x100
    ensures n / 0x100 == 0 && n % 0x100 == n
  {
  }

  lemma {:induction false} ZeroBytes(k: nat)
    ensures BigEndian(0, k) == Zeros(k)
  {
    if k == 0 {
      assert BigEndian(0, 0) == [];
    } else {
      hide BigEndian, ByteOf;
      ZeroBytes(k - 1);
      LastByte(0, k - 1);
      SmallBytes();
    }
  }

  lemma SmallBytes()
    ensures ByteOf(0) == 0 && ByteOf(24) == 24
  {
  }

  lemma OneBlock(block: seq<Byte>)
    requires |block| == BLOCK_SIZE
    ensures HashBlocks(block) == AddRegisters(Rounds(IV(), block, 64), IV())
  {
    hide Rounds, IV, AddRegisters;
    assert block[..0] == [] && block[0..] == block;
    EmptyMessage();
  }

  /** The hash value of FIPS 180-4. */
  lemma HashOfAbc()
    ensures HashBlocks(Pad([0x61, 0x62, 0x63]))
      == Registers(0xba7816bf, 0x8f01cfea, 0x414140de, 0x5dae2223,
                   0xb00361a3, 0x96177a9c, 0xb410ff61, 0xf20015ad)
  {
    hide IsAbc, Rounds, HashBlocks, IV, AddRegisters, Pad;
    var block := Pad([0x61, 0x62, 0x63]);
    PaddedAbc();
    OneBlock(block);
    Rounds64(block);
    InitialState();
    FedForward();
  }

  lemma BytesOfHash()
    ensures BytesOf(0xba7816bf) == [0xba, 0x78, 0x16, 0xbf]
    ensures BytesOf(0x8f01cfea) == [0x8f, 0x01, 0xcf, 0xea]
    ensures BytesOf(0x414140de) == [0x41, 0x41, 0x40, 0xde]
    ensures BytesOf(0x5dae2223) == [0x5d, 0xae, 0x22, 0x23]
    ensures BytesOf(0xb00361a3) == [0xb0, 0x03, 0x61, 0xa3]
    ensures BytesOf(0x96177a9c) == [0x96, 0x17, 0x7a, 0x9c]
    ensures BytesOf(0xb410ff61) == [0xb4, 0x10, 0xff, 0x61]
    ensures BytesOf(0xf20015ad) == [0xf2, 0x00, 0x15, 0xad]
  {
  }

  lemma {:induction false} BytesAt(ws: seq<Word>, i: nat)
    requires i < |ws|
    ensures BytesOfWords(ws)[4 * i..4 * i + 4] == BytesOf(ws[i])
  {
    hide BytesOf;
    var n := |ws| - 1;
    var front := BytesOfWords(ws[..n]);
    assert BytesOfWords(ws) == front + BytesOf(ws[n]);
    if i < n {
      BytesAt(ws[..n], i);
      assert (front + BytesOf(ws[n]))[4 * i..4 * i + 4] == front[4 * i..4 * i + 4];
    }
  }

  lemma Parts(d: seq<Byte>)
    requires |d| == 32
    ensures d == d[0..4] + d[4..8] + d[8..12] + d[12..16] + d[16..20] + d[20..24] + d[24..28] + d[28..32]
  {
  }

  /** The digest of FIPS 180-4, byte for byte. */
  lemma DigestOfAbc()
    ensures Digest([0x61, 0x62, 0x63])
      == [0xba, 0x78, 0x16, 0xbf, 0x8f, 0x01, 0xcf, 0xea,
          0x41, 0x41, 0x40, 0xde, 0x5d, 0xae, 0x22, 0x23,
          0xb0, 0x03, 0x61, 0xa3, 0x96, 0x17, 0x7a, 0x9c,
          0xb4, 0x10, 0xff, 0x61, 0xf2, 0x00, 0x15, 0xad]
  {
    hide HashBlocks, Pad, BytesOf, BytesOfWords;
    HashOfAbc();
    ghost var h := HashBlocks(Pad([0x61, 0x62, 0x63]));
    ghost var d := Digest([0x61, 0x62, 0x63]);
    BytesAt(h.Words(), 0);
    BytesAt(h.Words(), 1);
    BytesAt(h.Words(), 2);
    BytesAt(h.Words(), 3);
    BytesAt(h.Words(), 4);
    BytesAt(h.Words(), 5);
    BytesAt(h.Words(), 6);
    BytesAt(h.Words(), 7);
    assert d[0..4] == BytesOf(h.a) && d[4..8] == BytesOf(h.b) && d[8..12] == BytesOf(h.c) && d[12..16] == BytesOf(h.d);
    assert d[16..20] == BytesOf(h.e) && d[20..24] == BytesOf(h.f);
    assert d[24..28] == BytesOf(h.g) && d[28..32] == BytesOf(h.h);
    Parts(d);
    BytesOfHash();
  }
}
