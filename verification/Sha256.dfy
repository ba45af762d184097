/**
 The streaming SHA-256 of iw/sha256.c: a 64-byte buffer, a chaining value and a length
 counter, filled by any number of `Process` calls and closed by `Done`. The class is proved
 to compute `Sha256Spec.Digest` of everything it was given.
 */
module Sha256 {
  import opened Sha256Words
  import opened Sha256Spec

  // ----- The K array

  function KTable(t: nat): (k: nat)
    requires t < 64
    ensures k < TWO_32
  {
    if t < 8 then
      match t {
        case 0 => 0x428a2f98 case 1 => 0x71374491 case 2 => 0xb5c0fbcf case 3 => 0xe9b5dba5
        case 4 => 0x3956c25b case 5 => 0x59f111f1 case 6 => 0x923f82a4 case _ => 0xab1c5ed5
      }
    else if t < 16 then
      match t {
        case 8 => 0xd807aa98 case 9 => 0x12835b01 case 10 => 0x243185be case 11 => 0x550c7dc3
        case 12 => 0x72be5d74 case 13 => 0x80deb1fe case 14 => 0x9bdc06a7 case _ => 0xc19bf174
      }
    else if t < 24 then
      match t {
        case 16 => 0xe49b69c1 case 17 => 0xefbe4786 case 18 => 0x0fc19dc6 case 19 => 0x240ca1cc
        case 20 => 0x2de92c6f case 21 => 0x4a7484aa case 22 => 0x5cb0a9dc case _ => 0x76f988da
      }
    else if t < 32 then
      match t {
        case 24 => 0x983e5152 case 25 => 0xa831c66d case 26 => 0xb00327c8 case 27 => 0xbf597fc7
        case 28 => 0xc6e00bf3 case 29 => 0xd5a79147 case 30 => 0x06ca6351 case _ => 0x14292967
      }
    else if t < 40 then
      match t {
        case 32 => 0x27b70a85 case 33 => 0x2e1b2138 case 34 => 0x4d2c6dfc case 35 => 0x53380d13
        case 36 => 0x650a7354 case 37 => 0x766a0abb case 38 => 0x81c2c92e case _ => 0x92722c85
      }
    else if t < 48 then
      match t {
        case 40 => 0xa2bfe8a1 case 41 => 0xa81a664b case 42 => 0xc24b8b70 case 43 => 0xc76c51a3
        case 44 => 0xd192e819 case 45 => 0xd6990624 case 46 => 0xf40e3585 case _ => 0x106aa070
      }
    else if t < 56 then
      match t {
        case 48 => 0x19a4c116 case 49 => 0x1e376c08 case 50 => 0x2748774c case 51 => 0x34b0bcb5
        case 52 => 0x391c0cb3 case 53 => 0x4ed8aa4a case 54 => 0x5b9cca4f case _ => 0x682e6ff3
      }
    else
      match t {
        case 56 => 0x748f82ee case 57 => 0x78a5636f case 58 => 0x84c87814 case 59 => 0x8cc70208
        case 60 => 0x90befffa case 61 => 0xa4506ceb case 62 => 0xbef9a3f7 case _ => 0xc67178f2
      }
  }

  // ----- The K array and the initial state hold the roots the standard asks for

  function Whole(p: nat): nat {
    if p < 8 then 1 else if p < 27 then 2 else if p < 64 then 3
    else if p < 125 then 4 else if p < 216 then 5 else 6
  }

  predicate RootOk(t: nat)
    requires t < 64
  {
    IsCubeRoot(Whole(Prime(t)) * TWO_32 + KTable(t), Prime(t) * TWO_96)
  }

  lemma RootsOk0()
    ensures RootOk(0) && RootOk(1) && RootOk(2) && RootOk(3) && RootOk(4) && RootOk(5) && RootOk(6) && RootOk(7)
  {
  }

  lemma RootsOk1()
    ensures RootOk(8) && RootOk(9) && RootOk(10) && RootOk(11) && RootOk(12) && RootOk(13) && RootOk(14) && RootOk(15)
  {
  }

  lemma RootsOk2()
    ensures RootOk(16) && RootOk(17) && RootOk(18) && RootOk(19) && RootOk(20) && RootOk(21) && RootOk(22) && RootOk(23)
  {
  }

  lemma RootsOk3()
    ensures RootOk(24) && RootOk(25) && RootOk(26) && RootOk(27) && RootOk(28) && RootOk(29) && RootOk(30) && RootOk(31)
  {
  }

  lemma RootsOk4()
    ensures RootOk(32) && RootOk(33) && RootOk(34) && RootOk(35) && RootOk(36) && RootOk(37) && RootOk(38) && RootOk(39)
  {
  }

  lemma RootsOk5()
    ensures RootOk(40) && RootOk(41) && RootOk(42) && RootOk(43) && RootOk(44) && RootOk(45) && RootOk(46) && RootOk(47)
  {
  }

  lemma RootsOk6()
    ensures RootOk(48) && RootOk(49) && RootOk(50) && RootOk(51) && RootOk(52) && RootOk(53) && RootOk(54) && RootOk(55)
  {
  }

  lemma RootsOk7()
    ensures RootOk(56) && RootOk(57) && RootOk(58) && RootOk(59) && RootOk(60) && RootOk(61) && RootOk(62) && RootOk(63)
  {
  }

  lemma RootsOk(t: nat)
    requires t < 64
    ensures RootOk(t)
  {
    if t < 8 {
      RootsOk0();
    } else if t < 16 {
      RootsOk1();
    } else if t < 24 {
      RootsOk2();
    } else if t < 32 {
      RootsOk3();
    } else if t < 40 {
      RootsOk4();
    } else if t < 48 {
      RootsOk5();
    } else if t < 56 {
      RootsOk6();
    } else {
      RootsOk7();
    }
  }

  lemma KTableIsK(t: nat)
    requires t < 64
    ensures KTable(t) == K(t)
  {
    RootsOk(t);
    CubeRootUnique(Whole(Prime(t)) * TWO_32 + KTable(t), CubeRoot(Prime(t) * TWO_96), Prime(t) * TWO_96);
  }

  lemma InitialWord(t: nat, whole: nat, fraction: nat)
    requires t < 8 && fraction < TWO_32
    requires IsSquareRoot(whole * TWO_32 + fraction, Prime(t) * TWO_64)
    ensures H0(t) == fraction
  {
    SquareRootUnique(whole * TWO_32 + fraction, SquareRoot(Prime(t) * TWO_64), Prime(t) * TWO_64);
  }

  lemma InitialFractions()
    ensures H0(0) == 0x6A09E667 && H0(1) == 0xBB67AE85 && H0(2) == 0x3C6EF372 && H0(3) == 0xA54FF53A
  {
    InitialWord(0, 1, 0x6A09E667);
    InitialWord(1, 1, 0xBB67AE85);
    InitialWord(2, 2, 0x3C6EF372);
    InitialWord(3, 2, 0xA54FF53A);
  }

  lemma MoreInitialFractions()
    ensures H0(4) == 0x510E527F && H0(5) == 0x9B05688C && H0(6) == 0x1F83D9AB && H0(7) == 0x5BE0CD19
  {
    InitialWord(4, 3, 0x510E527F);
    InitialWord(5, 3, 0x9B05688C);
    InitialWord(6, 4, 0x1F83D9AB);
    InitialWord(7, 4, 0x5BE0CD19);
  }

  lemma InitialLiterals()
    ensures WordOf(0x6A09E667) == 0x6A09E667 && WordOf(0xBB67AE85) == 0xBB67AE85
    ensures WordOf(0x3C6EF372) == 0x3C6EF372 && WordOf(0xA54FF53A) == 0xA54FF53A
    ensures WordOf(0x510E527F) == 0x510E527F && WordOf(0x9B05688C) == 0x9B05688C
    ensures WordOf(0x1F83D9AB) == 0x1F83D9AB && WordOf(0x5BE0CD19) == 0x5BE0CD19
  {
  }

  lemma InitialState()
    ensures IV() == Registers(0x6A09E667, 0xBB67AE85, 0x3C6EF372, 0xA54FF53A,
                              0x510E527F, 0x9B05688C, 0x1F83D9AB, 0x5BE0CD19)
  {
    InitialLiterals();
    InitialFractions();
    MoreInitialFractions();
  }

  // ----- The hash state

  function RegistersOf(s: seq<Word>): Registers
    requires |s| == 8
  {
    Registers(s[0], s[1], s[2], s[3], s[4], s[5], s[6], s[7])
  }

  class State {
    var length: nat          // a 64-bit counter: bits of whole blocks compressed
    const state: array<Word>
    var curlen: nat          // bytes waiting in buf
    const buf: array<Byte>
    ghost var message: seq<Byte>

    ghost predicate Shape() reads this {
      state.Length == 8 && buf.Length == BLOCK_SIZE
    }

    /** All of `data` but its last `curlen` bytes, which wait in `buf`, has been compressed. */
    ghost predicate Holds(data: seq<Byte>)
      reads this, state, buf
    {
      && Shape()
      && curlen <= BLOCK_SIZE
      && var cut := |data| - curlen;
      && 0 <= cut
      && cut % BLOCK_SIZE == 0
      && RegistersOf(state[..]) == HashBlocks(data[..cut])
      && buf[..curlen] == data[cut..]
    }

    ghost predicate Valid()
      reads this, state, buf
    {
      && curlen < BLOCK_SIZE
      && Holds(message)
      && length == BitLength(|message| - curlen)
    }

    constructor Init()
      ensures Valid() && message == [] && fresh(state) && fresh(buf)
    {
      curlen, length, message := 0, 0, [];
      state, buf := new Word[8], new Byte[BLOCK_SIZE];
      new;
      hide Holds, BitLength, IV;
      InitialHash(state);
      EmptyIsValid();
    }

    lemma EmptyIsValid()
      requires Shape() && curlen == 0 && length == 0 && message == [] && RegistersOf(state[..]) == IV()
      ensures Valid()
    {
      hide HashBlocks, BitLength, IV;
      EmptyMessage();
      assert message[..0] == [];
    }

    /** Compress 512 bits into the chaining value. */
    method Compress(block: seq<Byte>)
      requires Shape() && |block| == BLOCK_SIZE
      modifies state
      ensures RegistersOf(state[..]) == NextHash(old(RegistersOf(state[..])), block)
    {
      var S := CopyOf(state);
      var W := ExpandMessage(block);
      RunRounds(S, W, block);
      Feedback(state, S);
    }

    /** `md->buf[md->curlen++] = b`. */
    method Put(b: Byte, ghost data: seq<Byte>)
      requires Holds(data) && curlen < BLOCK_SIZE
      modifies this`curlen, buf
      ensures Holds(data + [b]) && curlen == old(curlen) + 1
    {
      hide HashBlocks;
      buf[curlen] := b;
      curlen := curlen + 1;
      assert (data + [b])[..|data| + 1 - curlen] == data[..|data| - old(curlen)];
    }

    /** Append zero bytes until `limit` bytes wait. */
    method PutZeros(limit: nat, ghost data: seq<Byte>)
      requires Holds(data) && curlen <= limit <= BLOCK_SIZE
      modifies this`curlen, buf
      ensures Holds(data + Zeros(limit - old(curlen))) && curlen == limit
    {
      hide Holds;
      assert data + Zeros(0) == data;
      while curlen < limit
        invariant old(curlen) <= curlen <= limit
        invariant Holds(data + Zeros(curlen - old(curlen)))
      {
        ghost var n := curlen - old(curlen);
        Put(0, data + Zeros(n));
        assert data + Zeros(n) + [0] == data + Zeros(n + 1);
      }
    }

    /** `memcpy(md->buf + md->curlen, bytes, n)` and `md->curlen += n`. */
    method Copy(bytes: seq<Byte>, ghost data: seq<Byte>)
      requires Holds(data) && curlen + |bytes| <= BLOCK_SIZE
      modifies this`curlen, buf
      ensures Holds(data + bytes) && curlen == old(curlen) + |bytes|
    {
      hide HashBlocks;
      forall k | 0 <= k < |bytes| {
        buf[curlen + k] := bytes[k];
      }
      curlen := curlen + |bytes|;
      assert (data + bytes)[..|data| - old(curlen)] == data[..|data| - old(curlen)];
      assert buf[..curlen] == old(buf[..curlen]) + bytes;
    }

    /** Compress a full buffer and empty it. */
    method Flush(ghost data: seq<Byte>)
      requires Holds(data) && curlen == BLOCK_SIZE
      modifies this`curlen, state
      ensures Holds(data) && curlen == 0
    {
      hide NextHash, BitLength;
      ghost var cut := |data| - BLOCK_SIZE;
      assert data == data[..cut] + buf[..];
      HashBlocksAppend(data[..cut], buf[..]);
      Compress(buf[..]);
      curlen := 0;
      assert data[..|data|] == data;
    }

    method Process(input: seq<Byte>) returns (result: int)
      requires Shape() && (curlen < BLOCK_SIZE ==> Valid())
      modifies this, state, buf
      ensures result == if old(curlen) < BLOCK_SIZE then 0 else -1
      ensures result == 0 ==> Valid() && message == old(message) + input
      ensures result != 0 ==> unchanged(this, state, buf)
    {
      hide Holds, BitLength;
      if curlen >= BLOCK_SIZE {
        return -1;
      }
      var rest := input;
      while |rest| > 0
        invariant Valid() && message + rest == old(message) + input
      {
        if curlen == 0 && |rest| >= BLOCK_SIZE {
          AbsorbBlock(rest[..BLOCK_SIZE]);
          assert rest == rest[..BLOCK_SIZE] + rest[BLOCK_SIZE..];
          rest := rest[BLOCK_SIZE..];
        } else {
          var n := if |rest| < BLOCK_SIZE - curlen then |rest| else BLOCK_SIZE - curlen;
          AbsorbPart(rest[..n]);
          assert rest == rest[..n] + rest[n..];
          rest := rest[n..];
        }
      }
      return 0;
    }

    method AbsorbBlock(block: seq<Byte>)
      requires Valid() && curlen == 0 && |block| == BLOCK_SIZE
      modifies this, state
      ensures Valid() && message == old(message) + block
    {
      hide HashBlocks, NextHash, BitLength, RegistersOf;
      assert message[..|message|] == message;
      HashBlocksAppend(message, block);
      Compress(block);
      BitLengthAdd(|message|, BLOCK_SIZE);
      length := (length + BLOCK_SIZE * 8) % TWO_64;
      message := message + block;
      assert message[..|message|] == message;
    }

    method AbsorbPart(part: seq<Byte>)
      requires Valid() && curlen + |part| <= BLOCK_SIZE
      modifies this, state, buf
      ensures Valid() && message == old(message) + part
    {
      hide HashBlocks, BitLength;
      Copy(part, message);
      message := message + part;
      if curlen == BLOCK_SIZE {
        Flush(message);
        BitLengthAdd(|message| - BLOCK_SIZE, BLOCK_SIZE);
        length := (length + 8 * BLOCK_SIZE) % TWO_64;
      }
    }


    method Done(out: array<Byte>) returns (result: int)
      requires Shape() && (curlen < BLOCK_SIZE ==> Valid())
      requires out.Length >= 32 && out != buf
      modifies this, state, buf, out
      ensures result == if old(curlen) < BLOCK_SIZE then 0 else -1
      ensures result == 0 ==> out[..32] == Digest(old(message))
      ensures out[32..] == old(out[32..])
      ensures result != 0 ==> unchanged(this, state, buf, out)
    {
      hide NextHash, BitLength, Pad, HashBlocks;
      if curlen >= BLOCK_SIZE {
        return -1;
      }
      BitLengthAdd(|message| - curlen, curlen);
      length := (length + curlen * 8) % TWO_64;
      Finish();
      StoreWords(state, out);
      assert state[..8] == state[..];
      return 0;
    }

    /** The padding part of sha256_done. */
    method Finish()
      requires Shape() && curlen < BLOCK_SIZE && Holds(message) && length == BitLength(|message|)
      modifies this`curlen, state, buf
      ensures Shape() && RegistersOf(state[..]) == HashBlocks(Pad(message))
    {
      hide Holds, BitLength, Pad, Zeros, ZeroCount, BigEndian, HashBlocks, RegistersOf;
      PadTo56();
      StoreLength(message + [0x80] + Zeros(ZeroCount(|message|)));
      PadIs(message);
      AllCompressed(Pad(message));
    }

    static lemma PadIs(m: seq<Byte>)
      ensures Pad(m) == m + [0x80] + Zeros(ZeroCount(|m|)) + BigEndian(BitLength(|m|), 8)
    {
    }

    method StoreLength(ghost data: seq<Byte>)
      requires Holds(data) && curlen == 56 && length < TWO_64
      modifies this`curlen, state, buf
      ensures Holds(data + BigEndian(length, 8)) && curlen == 0
    {
      hide Holds, BigEndian;
      var bytes := Store64(length);
      Copy(bytes, data);
      Flush(data + bytes);
    }

    lemma AllCompressed(data: seq<Byte>)
      requires Holds(data) && curlen == 0
      ensures Shape() && |data| % BLOCK_SIZE == 0 && RegistersOf(state[..]) == HashBlocks(data)
    {
      hide HashBlocks;
      assert data[..|data|] == data;
    }

    lemma ZerosNeeded()
      requires curlen < BLOCK_SIZE && Holds(message)
      ensures ZeroCount(|message|) == if curlen < 56 then 55 - curlen else 119 - curlen
    {
      hide HashBlocks;
      ZeroCountOfWaiting(|message|, curlen);
    }

    /** The '1' bit and the zeros: within this block, or through the next when the length would not fit. */
    method PadTo56()
      requires curlen < BLOCK_SIZE && Holds(message)
      modifies this`curlen, state, buf
      ensures Holds(message + [0x80] + Zeros(ZeroCount(|message|))) && curlen == 56
    {
      hide Holds, ZeroCount, Zeros;
      ZerosNeeded();
      ghost var data := message + [0x80];
      Put(0x80, message);
      ghost var first, last := 0, 56 - curlen;
      if curlen > 56 {
        first, last := BLOCK_SIZE - curlen, 56;
        PutZeros(BLOCK_SIZE, data);
        Flush(data + Zeros(first));
      } else {
        assert data + Zeros(0) == data;
      }
      PutZeros(56, data + Zeros(first));
      ZerosAdd(data, first, last);
    }
  }

  method InitialHash(state: array<Word>)
    requires state.Length == 8
    modifies state
    ensures RegistersOf(state[..]) == IV()
  {
    state[0] := 0x6A09E667;
    state[1] := 0xBB67AE85;
    state[2] := 0x3C6EF372;
    state[3] := 0xA54FF53A;
    state[4] := 0x510E527F;
    state[5] := 0x9B05688C;
    state[6] := 0x1F83D9AB;
    state[7] := 0x5BE0CD19;
    InitialState();
  }

  /** STORE32B of every state word. */
  method StoreWords(state: array<Word>, out: array<Byte>)
    requires state.Length == 8 && out.Length >= 32
    modifies out
    ensures out[..32] == BytesOfWords(RegistersOf(state[..]).Words())
    ensures out[32..] == old(out[32..])
  {
    for i := 0 to 8
      invariant out[..4 * i] == BytesOfWords(state[..i])
      invariant out[32..] == old(out[32..])
    {
      StoreWord(out, 4 * i, state[i]);
      assert out[..4 * i + 4] == out[..4 * i] + out[4 * i..4 * i + 4];
      assert state[..i + 1][..i] == state[..i];
    }
    assert state[..8] == RegistersOf(state[..]).Words();
  }

  method StoreWord(out: array<Byte>, at: nat, w: Word)
    requires at + 4 <= out.Length
    modifies out
    ensures out[..at] == old(out[..at]) && out[at + 4..] == old(out[at + 4..])
    ensures out[at..at + 4] == BytesOf(w)
  {
    hide BytesOf;
    var b := BytesOf(w);
    out[at], out[at + 1], out[at + 2], out[at + 3] := b[0], b[1], b[2], b[3];
    assert out[at..at + 4] == [b[0], b[1], b[2], b[3]] == b;
  }

  method CopyOf(state: array<Word>) returns (S: array<Word>)
    requires state.Length == 8
    ensures fresh(S) && S.Length == 8 && RegistersOf(S[..]) == RegistersOf(state[..])
  {
    S := new Word[8];
    for i := 0 to 8
      invariant forall j :: 0 <= j < i ==> S[j] == state[j]
    {
      S[i] := state[i];
    }
  }

  method Feedback(state: array<Word>, S: array<Word>)
    requires state.Length == 8 && S.Length == 8 && state != S
    modifies state
    ensures RegistersOf(state[..]) == AddRegisters(RegistersOf(S[..]), old(RegistersOf(state[..])))
  {
    for i := 0 to 8
      invariant forall j :: 0 <= j < 8 ==> state[j] == if j < i then Add(old(state[j]), S[j]) else old(state[j])
    {
      state[i] := Add(state[i], S[i]);
    }
  }

  method RunRounds(S: array<Word>, W: array<Word>, ghost block: seq<Byte>)
    requires S.Length == 8 && W.Length == 64 && |block| == BLOCK_SIZE && S != W
    requires forall j :: 0 <= j < 64 ==> W[j] == Schedule(block, j)
    modifies S
    ensures RegistersOf(S[..]) == Rounds(old(RegistersOf(S[..])), block, 64)
  {
    for i := 0 to 64
      invariant RegistersOf(S[..]) == Rounds(old(RegistersOf(S[..])), block, i)
    {
      KTableIsK(i);
      RoundOnRegisters(S, WordOf(KTable(i)), W[i]);
    }
  }

  /** RND on the eight registers, then the rotation that renames them for the next round. */
  method RoundOnRegisters(S: array<Word>, k: Word, w: Word)
    requires S.Length == 8
    modifies S
    ensures RegistersOf(S[..]) == Round(old(RegistersOf(S[..])), k, w)
  {
    hide Low32, T0, T1, Add, BigSigma0, BigSigma1, Choose, Majority;
    T0Agrees(S[4], S[5], S[6], S[7], k, w);
    T1Agrees(S[0], S[1], S[2]);
    var t0 := Low32(T0(S[4], S[5], S[6], S[7], k, w));
    var t1 := Low32(T1(S[0], S[1], S[2]));
    S[3] := Add(S[3], t0);
    S[7] := Add(t0, t1);
    RotateRegisters(S);
  }

  method RotateRegisters(S: array<Word>)
    requires S.Length == 8
    modifies S
    ensures S[0] == old(S[7]) && S[1] == old(S[0]) && S[2] == old(S[1]) && S[3] == old(S[2])
    ensures S[4] == old(S[3]) && S[5] == old(S[4]) && S[6] == old(S[5]) && S[7] == old(S[6])
  {
    var t := S[7];
    S[7] := S[6];
    S[6] := S[5];
    S[5] := S[4];
    S[4] := S[3];
    S[3] := S[2];
    S[2] := S[1];
    S[1] := S[0];
    S[0] := t;
  }

  /** The first two loops over W: load sixteen words, then fill up to 64. */
  method ExpandMessage(block: seq<Byte>) returns (W: array<Word>)
    requires |block| == BLOCK_SIZE
    ensures fresh(W) && W.Length == 64
    ensures forall j :: 0 <= j < 64 ==> W[j] == Schedule(block, j)
  {
    W := new Word[64];
    for i := 0 to 16
      invariant forall j :: 0 <= j < i ==> W[j] == Schedule(block, j)
    {
      W[i] := WordAt(block, i);
    }
    for i := 16 to 64
      invariant forall j :: 0 <= j < i ==> W[j] == Schedule(block, j)
    {
      NextWAgrees(W[i - 2], W[i - 7], W[i - 15], W[i - 16]);
      W[i] := Low32(NextW(W[i - 2], W[i - 7], W[i - 15], W[i - 16]));
    }
  }

  lemma TwoBytes(n: nat, k: nat)
    ensures BigEndian(n, k + 2) == BigEndian(n / 0x1_0000, k) + [ByteOf(n / 0x100 % 0x100), ByteOf(n % 0x100)]
  {
    assert n / 0x100 / 0x100 == n / 0x1_0000;
    assert BigEndian(n / 0x100, k + 1) == BigEndian(n / 0x1_0000, k) + [ByteOf(n / 0x100 % 0x100)];
  }

  lemma FourBytes(n: nat, k: nat)
    ensures BigEndian(n, k + 4)
            == BigEndian(n / 0x1_0000_0000, k)
               + [ByteOf(n / 0x100_0000 % 0x100), ByteOf(n / 0x1_0000 % 0x100),
                  ByteOf(n / 0x100 % 0x100), ByteOf(n % 0x100)]
  {
    TwoBytes(n, k + 2);
    TwoBytes(n / 0x1_0000, k);
    assert n / 0x1_0000 / 0x1_0000 == n / 0x1_0000_0000 && n / 0x1_0000 / 0x100 == n / 0x100_0000;
  }

  lemma StoredBytes(n: nat)
    requires n < TWO_64
    ensures BigEndian(n, 8)
            == [ByteOf(n / 0x100_0000_0000_0000), ByteOf(n / 0x1_0000_0000_0000 % 0x100),
                ByteOf(n / 0x100_0000_0000 % 0x100), ByteOf(n / 0x1_0000_0000 % 0x100)]
               + [ByteOf(n / 0x100_0000 % 0x100), ByteOf(n / 0x1_0000 % 0x100),
                  ByteOf(n / 0x100 % 0x100), ByteOf(n % 0x100)]
  {
    hide BigEndian, ByteOf;
    FourBytes(n, 4);
    HighBytes(n);
  }

  lemma HighBytes(n: nat)
    requires n < TWO_64
    ensures BigEndian(n / 0x1_0000_0000, 4)
            == [ByteOf(n / 0x100_0000_0000_0000), ByteOf(n / 0x1_0000_0000_0000 % 0x100),
                ByteOf(n / 0x100_0000_0000 % 0x100), ByteOf(n / 0x1_0000_0000 % 0x100)]
  {
    hide BigEndian, ByteOf;
    var high := n / 0x1_0000_0000;
    FourBytes(high, 0);
    Quotients(n);
    assert BigEndian(high / 0x1_0000_0000, 0) == [];
  }

  lemma Quotients(n: nat)
    requires n < TWO_64
    ensures var high := n / 0x1_0000_0000;
            && high / 0x100_0000 % 0x100 == n / 0x100_0000_0000_0000
            && high / 0x1_0000 % 0x100 == n / 0x1_0000_0000_0000 % 0x100
            && high / 0x100 % 0x100 == n / 0x100_0000_0000 % 0x100
  {
  }

  /** STORE64B: the eight bytes of the length, most significant first. */
  method Store64(n: nat) returns (bytes: seq<Byte>)
    requires n < TWO_64
    ensures bytes == BigEndian(n, 8)
  {
    StoredBytes(n);
    bytes := [ByteOf(n / 0x100_0000_0000_0000), ByteOf(n / 0x1_0000_0000_0000 % 0x100),
              ByteOf(n / 0x100_0000_0000 % 0x100), ByteOf(n / 0x1_0000_0000 % 0x100),
              ByteOf(n / 0x100_0000 % 0x100), ByteOf(n / 0x1_0000 % 0x100),
              ByteOf(n / 0x100 % 0x100), ByteOf(n % 0x100)];
  }

  /** The sha256 function: one message, one call. */
  method Sha256(addr: seq<Byte>, res: array<Byte>) returns (result: int)
    requires res.Length >= 32
    modifies res
    ensures result == 0 && res[..32] == Digest(addr) && res[32..] == old(res[32..])
  {
    var ctx := new State.Init();
    result := ctx.Process(addr);
    result := ctx.Done(res);
    assert [] + addr == addr;
  }

  function Concat(chunks: seq<seq<Byte>>): seq<Byte> {
    if chunks == [] then [] else Concat(chunks[..|chunks| - 1]) + chunks[|chunks| - 1]
  }

  /** Any number of process calls: only the concatenation of the chunks matters. */
  method Sha256OfChunks(chunks: seq<seq<Byte>>) returns (digest: seq<Byte>)
    ensures digest == Digest(Concat(chunks))
  {
    hide NextHash, HashBlocks, BitLength, Digest;
    var ctx := new State.Init();
    for i := 0 to |chunks|
      invariant ctx.Valid() && fresh(ctx) && fresh(ctx.state) && fresh(ctx.buf)
      invariant ctx.message == Concat(chunks[..i])
    {
      var result := ctx.Process(chunks[i]);
      assert chunks[..i + 1] == chunks[..i] + [chunks[i]];
    }
    assert chunks[..|chunks|] == chunks;
    var out := new Byte[32];
    var result := ctx.Done(out);
    digest := out[..32];
  }

  /** compute_service_id of iw/nan.c: the first six bytes of the digest of the service name. */
  method ComputeServiceId(servName: seq<Byte>, res: array<Byte>) returns (result: int)
    requires res.Length >= 6
    modifies res
    ensures result == 0 && res[..6] == Digest(servName)[..6] && res[6..] == old(res[6..])
  {
    var mdValue := new Byte[32];
    result := Sha256(servName, mdValue);
    forall k | 0 <= k < 6 {
      res[k] := mdValue[k];
    }
  }
}
