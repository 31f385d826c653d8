/** A known answer: the digest of "abc" that the original's tests promise, which is also the one-block
    example of FIPS 180-2, appendix B.1. It fixes every constant, rotation and byte order of the one-shot function. */
module Sha256Example {
  import opened Sha256

  const ABC: seq<Octet> := [0x61, 0x62, 0x63]

  /** The block: the text, the marker, zeros and the length of 24 bits. */
  lemma PaddedAbc()
    ensures |Pad(ABC)| == 64
    ensures Pad(ABC)[0] == 0x61 && Pad(ABC)[1] == 0x62 && Pad(ABC)[2] == 0x63 && Pad(ABC)[3] == 0x80
    ensures forall k :: 4 <= k < 63 ==> Pad(ABC)[k] == 0
    ensures Pad(ABC)[63] == 24
  {
    assert ZeroOctets(3) == 52;
    LengthOfAbc();
    hide ZeroOctets, LengthOctets;
  }

  lemma LengthOfAbc()
    ensures |LengthOctets(24)| == 8 && LengthOctets(24)[7] == 24
    ensures forall k :: 0 <= k < 7 ==> LengthOctets(24)[k] == 0
  {
    hide OctetOf;
    forall place: nat | 1 <= place < 8
      ensures OctetOf(24, place) == 0
    {
      HigherOctetIsZero(place);
    }
    LowestOctet();
  }

  lemma LowestOctet()
    ensures OctetOf(24, 0) == 24
  {
    assert Power256(0) == 1;
  }

  lemma HigherOctetIsZero(place: nat)
    requires place >= 1
    ensures OctetOf(24, place) == 0
  {
    Power256Positive(place - 1);
    assert Power256(place) >= 256;
    hide Power256;
    SmallQuotient(24, Power256(place));
  }

  lemma SmallQuotient(a: nat, b: nat)
    requires a < b
    ensures a / b == 0
  {
  }

  /** Eight words of the schedule from word `t` on. */
  ghost predicate WordsFrom(t: nat, words: seq<Word>) {
    |words| == 8 && |Pad(ABC)| == 64 && forall i: nat :: i < 8 ==> Schedule(Pad(ABC), t + i) == words[i]
  }

  /** Eight words `c` as the schedule computes them from the sixteen before, `a` and `b`. */
  predicate Follow(a: seq<Word>, b: seq<Word>, c: seq<Word>) {
    && |a| == |b| == |c| == 8
    && c[0] == Sum4(SmallSigma1(b[6]), b[1], SmallSigma0(a[1]), a[0])
    && c[1] == Sum4(SmallSigma1(b[7]), b[2], SmallSigma0(a[2]), a[1])
    && c[2] == Sum4(SmallSigma1(c[0]), b[3], SmallSigma0(a[3]), a[2])
    && c[3] == Sum4(SmallSigma1(c[1]), b[4], SmallSigma0(a[4]), a[3])
    && c[4] == Sum4(SmallSigma1(c[2]), b[5], SmallSigma0(a[5]), a[4])
    && c[5] == Sum4(SmallSigma1(c[3]), b[6], SmallSigma0(a[6]), a[5])
    && c[6] == Sum4(SmallSigma1(c[4]), b[7], SmallSigma0(a[7]), a[6])
    && c[7] == Sum4(SmallSigma1(c[5]), c[0], SmallSigma0(b[0]), a[7])
  }

  lemma WordsFollow(t: nat, a: seq<Word>, b: seq<Word>, c: seq<Word>)
    requires t >= 16 && WordsFrom(t - 16, a) && WordsFrom(t - 8, b) && Follow(a, b, c)
    ensures WordsFrom(t, c)
  {
    hide Pad, Sum4, SmallSigma0, SmallSigma1, WordAt, Schedule;
    WordsAre(t - 16, a);
    WordsAre(t - 8, b);
    hide WordsFrom;
    var block := Pad(ABC);
    OneWord(block, t);
    OneWord(block, t + 1);
    OneWord(block, t + 2);
    OneWord(block, t + 3);
    OneWord(block, t + 4);
    OneWord(block, t + 5);
    OneWord(block, t + 6);
    OneWord(block, t + 7);
    EightWords(t, c);
  }

  lemma WordsAre(t: nat, words: seq<Word>)
    requires WordsFrom(t, words)
    ensures |Pad(ABC)| == 64 && |words| == 8
    ensures Schedule(Pad(ABC), t) == words[0] && Schedule(Pad(ABC), t + 1) == words[1]
    ensures Schedule(Pad(ABC), t + 2) == words[2] && Schedule(Pad(ABC), t + 3) == words[3]
    ensures Schedule(Pad(ABC), t + 4) == words[4] && Schedule(Pad(ABC), t + 5) == words[5]
    ensures Schedule(Pad(ABC), t + 6) == words[6] && Schedule(Pad(ABC), t + 7) == words[7]
  {
    hide Pad, Schedule;
    assert Schedule(Pad(ABC), t + 0) == words[0];
  }

  lemma EightWords(t: nat, words: seq<Word>)
    requires |Pad(ABC)| == 64 && |words| == 8
    requires Schedule(Pad(ABC), t) == words[0] && Schedule(Pad(ABC), t + 1) == words[1]
    requires Schedule(Pad(ABC), t + 2) == words[2] && Schedule(Pad(ABC), t + 3) == words[3]
    requires Schedule(Pad(ABC), t + 4) == words[4] && Schedule(Pad(ABC), t + 5) == words[5]
    requires Schedule(Pad(ABC), t + 6) == words[6] && Schedule(Pad(ABC), t + 7) == words[7]
    ensures WordsFrom(t, words)
  {
    hide Pad, Schedule;
  }

  lemma OneWord(block: seq<Octet>, t: nat)
    requires |block| == 64 && t >= 16
    ensures Schedule(block, t)
         == Sum4(SmallSigma1(Schedule(block, t - 2)), Schedule(block, t - 7), SmallSigma0(Schedule(block, t - 15)), Schedule(block, t - 16))
  {
    hide Sum4, SmallSigma0, SmallSigma1, WordAt;
  }

  const WORDS_0: seq<Word> := [0x61626380, 0x00000000, 0x00000000, 0x00000000, 0x00000000, 0x00000000, 0x00000000, 0x00000000]
  const WORDS_8: seq<Word> := [0x00000000, 0x00000000, 0x00000000, 0x00000000, 0x00000000, 0x00000000, 0x00000000, 0x00000018]
  const WORDS_16: seq<Word> := [0x61626380, 0x000f0000, 0x7da86405, 0x600003c6, 0x3e9d7b78, 0x0183fc00, 0x12dcbfdb, 0xe2e2c38e]
  const WORDS_24: seq<Word> := [0xc8215c1a, 0xb73679a2, 0xe5bc3909, 0x32663c5b, 0x9d209d67, 0xec8726cb, 0x702138a4, 0xd3b7973b]
  const WORDS_32: seq<Word> := [0x93f5997f, 0x3b68ba73, 0xaff4ffc1, 0xf10a5c62, 0x0a8b3996, 0x72af830a, 0x9409e33e, 0x24641522]
  const WORDS_40: seq<Word> := [0x9f47bf94, 0xf0a64f5a, 0x3e246a79, 0x27333ba3, 0x0c4763f2, 0x840abf27, 0x7a290d5d, 0x065c43da]
  const WORDS_48: seq<Word> := [0xfb3e89cb, 0xcc7617db, 0xb9e66c34, 0xa9993667, 0x84badedd, 0xc21462bc, 0x1487472c, 0xb20f7a99]
  const WORDS_56: seq<Word> := [0xef57b9cd, 0xebe6b238, 0x9fe3095e, 0x78bc8d4b, 0xa43fcf15, 0x668b2ff8, 0xeeaba2cc, 0x12b1edeb]

  lemma WordsOfBlock()
    ensures WordsFrom(0, WORDS_0) && WordsFrom(8, WORDS_8)
  {
    PaddedAbc();
    hide Pad;
  }

  lemma Follow16()
    ensures Follow(WORDS_0, WORDS_8, WORDS_16)
  {
    assert Sum4(SmallSigma1(0x00000000), 0x00000000, SmallSigma0(0x00000000), 0x61626380) == 0x61626380;
    assert Sum4(SmallSigma1(0x00000018), 0x00000000, SmallSigma0(0x00000000), 0x00000000) == 0x000f0000;
    assert Sum4(SmallSigma1(0x61626380), 0x00000000, SmallSigma0(0x00000000), 0x00000000) == 0x7da86405;
    assert Sum4(SmallSigma1(0x000f0000), 0x00000000, SmallSigma0(0x00000000), 0x00000000) == 0x600003c6;
    assert Sum4(SmallSigma1(0x7da86405), 0x00000000, SmallSigma0(0x00000000), 0x00000000) == 0x3e9d7b78;
    assert Sum4(SmallSigma1(0x600003c6), 0x00000000, SmallSigma0(0x00000000), 0x00000000) == 0x0183fc00;
    assert Sum4(SmallSigma1(0x3e9d7b78), 0x00000018, SmallSigma0(0x00000000), 0x00000000) == 0x12dcbfdb;
    assert Sum4(SmallSigma1(0x0183fc00), 0x61626380, SmallSigma0(0x00000000), 0x00000000) == 0xe2e2c38e;
    hide Sum4, SmallSigma0, SmallSigma1;
  }

  lemma Follow24()
    ensures Follow(WORDS_8, WORDS_16, WORDS_24)
  {
    assert Sum4(SmallSigma1(0x12dcbfdb), 0x000f0000, SmallSigma0(0x00000000), 0x00000000) == 0xc8215c1a;
    assert Sum4(SmallSigma1(0xe2e2c38e), 0x7da86405, SmallSigma0(0x00000000), 0x00000000) == 0xb73679a2;
    assert Sum4(SmallSigma1(0xc8215c1a), 0x600003c6, SmallSigma0(0x00000000), 0x00000000) == 0xe5bc3909;
    assert Sum4(SmallSigma1(0xb73679a2), 0x3e9d7b78, SmallSigma0(0x00000000), 0x00000000) == 0x32663c5b;
    assert Sum4(SmallSigma1(0xe5bc3909), 0x0183fc00, SmallSigma0(0x00000000), 0x00000000) == 0x9d209d67;
    assert Sum4(SmallSigma1(0x32663c5b), 0x12dcbfdb, SmallSigma0(0x00000000), 0x00000000) == 0xec8726cb;
    assert Sum4(SmallSigma1(0x9d209d67), 0xe2e2c38e, SmallSigma0(0x00000018), 0x00000000) == 0x702138a4;
    assert Sum4(SmallSigma1(0xec8726cb), 0xc8215c1a, SmallSigma0(0x61626380), 0x00000018) == 0xd3b7973b;
    hide Sum4, SmallSigma0, SmallSigma1;
  }

  lemma Follow32()
    ensures Follow(WORDS_16, WORDS_24, WORDS_32)
  {
    assert Sum4(SmallSigma1(0x702138a4), 0xb73679a2, SmallSigma0(0x000f0000), 0x61626380) == 0x93f5997f;
    assert Sum4(SmallSigma1(0xd3b7973b), 0xe5bc3909, SmallSigma0(0x7da86405), 0x000f0000) == 0x3b68ba73;
    assert Sum4(SmallSigma1(0x93f5997f), 0x32663c5b, SmallSigma0(0x600003c6), 0x7da86405) == 0xaff4ffc1;
    assert Sum4(SmallSigma1(0x3b68ba73), 0x9d209d67, SmallSigma0(0x3e9d7b78), 0x600003c6) == 0xf10a5c62;
    assert Sum4(SmallSigma1(0xaff4ffc1), 0xec8726cb, SmallSigma0(0x0183fc00), 0x3e9d7b78) == 0x0a8b3996;
    assert Sum4(SmallSigma1(0xf10a5c62), 0x702138a4, SmallSigma0(0x12dcbfdb), 0x0183fc00) == 0x72af830a;
    assert Sum4(SmallSigma1(0x0a8b3996), 0xd3b7973b, SmallSigma0(0xe2e2c38e), 0x12dcbfdb) == 0x9409e33e;
    assert Sum4(SmallSigma1(0x72af830a), 0x93f5997f, SmallSigma0(0xc8215c1a), 0xe2e2c38e) == 0x24641522;
    hide Sum4, SmallSigma0, SmallSigma1;
  }

  lemma Follow40()
    ensures Follow(WORDS_24, WORDS_32, WORDS_40)
  {
    assert Sum4(SmallSigma1(0x9409e33e), 0x3b68ba73, SmallSigma0(0xb73679a2), 0xc8215c1a) == 0x9f47bf94;
    assert Sum4(SmallSigma1(0x24641522), 0xaff4ffc1, SmallSigma0(0xe5bc3909), 0xb73679a2) == 0xf0a64f5a;
    assert Sum4(SmallSigma1(0x9f47bf94), 0xf10a5c62, SmallSigma0(0x32663c5b), 0xe5bc3909) == 0x3e246a79;
    assert Sum4(SmallSigma1(0xf0a64f5a), 0x0a8b3996, SmallSigma0(0x9d209d67), 0x32663c5b) == 0x27333ba3;
    assert Sum4(SmallSigma1(0x3e246a79), 0x72af830a, SmallSigma0(0xec8726cb), 0x9d209d67) == 0x0c4763f2;
    assert Sum4(SmallSigma1(0x27333ba3), 0x9409e33e, SmallSigma0(0x702138a4), 0xec8726cb) == 0x840abf27;
    assert Sum4(SmallSigma1(0x0c4763f2), 0x24641522, SmallSigma0(0xd3b7973b), 0x702138a4) == 0x7a290d5d;
    assert Sum4(SmallSigma1(0x840abf27), 0x9f47bf94, SmallSigma0(0x93f5997f), 0xd3b7973b) == 0x065c43da;
    hide Sum4, SmallSigma0, SmallSigma1;
  }

  lemma Follow48()
    ensures Follow(WORDS_32, WORDS_40, WORDS_48)
  {
    assert Sum4(SmallSigma1(0x7a290d5d), 0xf0a64f5a, SmallSigma0(0x3b68ba73), 0x93f5997f) == 0xfb3e89cb;
    assert Sum4(SmallSigma1(0x065c43da), 0x3e246a79, SmallSigma0(0xaff4ffc1), 0x3b68ba73) == 0xcc7617db;
    assert Sum4(SmallSigma1(0xfb3e89cb), 0x27333ba3, SmallSigma0(0xf10a5c62), 0xaff4ffc1) == 0xb9e66c34;
    assert Sum4(SmallSigma1(0xcc7617db), 0x0c4763f2, SmallSigma0(0x0a8b3996), 0xf10a5c62) == 0xa9993667;
    assert Sum4(SmallSigma1(0xb9e66c34), 0x840abf27, SmallSigma0(0x72af830a), 0x0a8b3996) == 0x84badedd;
    assert Sum4(SmallSigma1(0xa9993667), 0x7a290d5d, SmallSigma0(0x9409e33e), 0x72af830a) == 0xc21462bc;
    assert Sum4(SmallSigma1(0x84badedd), 0x065c43da, SmallSigma0(0x24641522), 0x9409e33e) == 0x1487472c;
    assert Sum4(SmallSigma1(0xc21462bc), 0xfb3e89cb, SmallSigma0(0x9f47bf94), 0x24641522) == 0xb20f7a99;
    hide Sum4, SmallSigma0, SmallSigma1;
  }

  lemma Follow56()
    ensures Follow(WORDS_40, WORDS_48, WORDS_56)
  {
    assert Sum4(SmallSigma1(0x1487472c), 0xcc7617db, SmallSigma0(0xf0a64f5a), 0x9f47bf94) == 0xef57b9cd;
    assert Sum4(SmallSigma1(0xb20f7a99), 0xb9e66c34, SmallSigma0(0x3e246a79), 0xf0a64f5a) == 0xebe6b238;
    assert Sum4(SmallSigma1(0xef57b9cd), 0xa9993667, SmallSigma0(0x27333ba3), 0x3e246a79) == 0x9fe3095e;
    assert Sum4(SmallSigma1(0xebe6b238), 0x84badedd, SmallSigma0(0x0c4763f2), 0x27333ba3) == 0x78bc8d4b;
    assert Sum4(SmallSigma1(0x9fe3095e), 0xc21462bc, SmallSigma0(0x840abf27), 0x0c4763f2) == 0xa43fcf15;
    assert Sum4(SmallSigma1(0x78bc8d4b), 0x1487472c, SmallSigma0(0x7a290d5d), 0x840abf27) == 0x668b2ff8;
    assert Sum4(SmallSigma1(0xa43fcf15), 0xb20f7a99, SmallSigma0(0x065c43da), 0x7a290d5d) == 0xeeaba2cc;
    assert Sum4(SmallSigma1(0x668b2ff8), 0xef57b9cd, SmallSigma0(0xfb3e89cb), 0x065c43da) == 0x12b1edeb;
    hide Sum4, SmallSigma0, SmallSigma1;
  }

  lemma WordsOfSchedule()
    ensures WordsFrom(0, WORDS_0) && WordsFrom(8, WORDS_8) && WordsFrom(16, WORDS_16) && WordsFrom(24, WORDS_24)
    ensures WordsFrom(32, WORDS_32) && WordsFrom(40, WORDS_40) && WordsFrom(48, WORDS_48) && WordsFrom(56, WORDS_56)
  {
    hide WordsFrom, Follow;
    WordsOfBlock();
    Follow16();
    WordsFollow(16, WORDS_0, WORDS_8, WORDS_16);
    Follow24();
    WordsFollow(24, WORDS_8, WORDS_16, WORDS_24);
    Follow32();
    WordsFollow(32, WORDS_16, WORDS_24, WORDS_32);
    Follow40();
    WordsFollow(40, WORDS_24, WORDS_32, WORDS_40);
    Follow48();
    WordsFollow(48, WORDS_32, WORDS_40, WORDS_48);
    Follow56();
    WordsFollow(56, WORDS_40, WORDS_48, WORDS_56);
  }

  /** Eight rounds from a row of constants and eight words. */
  function EightRounds(r: Registers, k: seq<Word>, w: seq<Word>): Registers
    requires |k| == |w| == 8
  {
    Round(Round(Round(Round(Round(Round(Round(Round(r, k[0], w[0]), k[1], w[1]), k[2], w[2]), k[3], w[3]),
          k[4], w[4]), k[5], w[5]), k[6], w[6]), k[7], w[7])
  }

  lemma RoundsFollow(t: nat, k: seq<Word>, w: seq<Word>)
    requires t + 8 <= |CONSTANTS| && WordsFrom(t, w) && CONSTANTS[t..t + 8] == k
    ensures Rounds(INITIAL, Pad(ABC), t + 8) == EightRounds(Rounds(INITIAL, Pad(ABC), t), k, w)
  {
    hide Round, Schedule, CONSTANTS, INITIAL, Pad;
    forall i: nat | i < 8
      ensures Rounds(INITIAL, Pad(ABC), t + i + 1) == Round(Rounds(INITIAL, Pad(ABC), t + i), k[i], w[i])
    {
      assert CONSTANTS[t + i] == CONSTANTS[t..t + 8][i];
      OneRound(Pad(ABC), t + i);
    }
    hide Rounds;
  }

  lemma OneRound(block: seq<Octet>, t: nat)
    requires |block| == 64 && t < |CONSTANTS|
    ensures Rounds(INITIAL, block, t + 1) == Round(Rounds(INITIAL, block, t), CONSTANTS[t], Schedule(block, t))
  {
    hide Round, Schedule, CONSTANTS, INITIAL;
  }

  lemma RowsOfConstants()
    ensures |CONSTANTS| == 64
    ensures CONSTANTS[0..8] == ROW_0 && CONSTANTS[8..16] == ROW_1 && CONSTANTS[16..24] == ROW_2 && CONSTANTS[24..32] == ROW_3
    ensures CONSTANTS[32..40] == ROW_4 && CONSTANTS[40..48] == ROW_5 && CONSTANTS[48..56] == ROW_6 && CONSTANTS[56..64] == ROW_7
  {
  }

  /** The registers after a round that computed new values for the first and the fifth. */
  function Shifted(r: Registers, a: Word, e: Word): Registers {
    Registers(a, r.a, r.b, r.c, e, r.e, r.f, r.g)
  }

  // The registers after each eight rounds.
  const STATE_0: Registers := Registers(0x6a09e667, 0xbb67ae85, 0x3c6ef372, 0xa54ff53a, 0x510e527f, 0x9b05688c, 0x1f83d9ab, 0x5be0cd19)
  const STATE_8: Registers := Registers(0x85a07b5f, 0xe5030380, 0x2b4209f5, 0x04409a6a, 0x0c657a79, 0x9b27a401, 0x714260ad, 0x43ada245)
  const STATE_16: Registers := Registers(0xb0fa238e, 0xc0645fde, 0xd932eb16, 0x87912990, 0x07590dcd, 0x0b92f20c, 0x745a48de, 0x1e578218)
  const STATE_24: Registers := Registers(0xc5d53d8d, 0xa7a3623f, 0xc2606d6d, 0x9dc68b63, 0xaa47c347, 0x49f5114a, 0xe1257970, 0x8ada8930)
  const STATE_32: Registers := Registers(0x73b33bf5, 0xea992a22, 0xa0060b30, 0x363482c9, 0xba591112, 0x0109ab3a, 0xade79437, 0x6112a3b7)
  const STATE_40: Registers := Registers(0x79ea687a, 0x6dc57a8a, 0x34df1604, 0x41a65cb1, 0x1efbc0a0, 0xf0781bc8, 0xa507a53d, 0x0772a26b)
  const STATE_48: Registers := Registers(0x4172328d, 0xa14c14b0, 0x72ab4b91, 0x26628815, 0xfecf0bc6, 0xd57b94a9, 0xb7755da1, 0xa80f11f0)
  const STATE_56: Registers := Registers(0x38cc9913, 0x3ec45cdb, 0xf5702fdb, 0x101fd28f, 0x54cb266b, 0xe50e1b4f, 0x9f4787c3, 0x529e7d00)
  const STATE_64: Registers := Registers(0x506e3058, 0xd39a2165, 0x04d24d6c, 0xb85e2ce9, 0x5ef50f24, 0xfb121210, 0x948d25b6, 0x961f4894)

  lemma Rounds0()
    ensures EightRounds(STATE_0, ROW_0, WORDS_0) == STATE_8
  {
    var r1 := Shifted(STATE_0, 0x5d6aebcd, 0xfa2a4622);
    assert Round(STATE_0, 0x428a2f98, 0x61626380) == r1;
    var r2 := Shifted(r1, 0x5a6ad9ad, 0x78ce7989);
    assert Round(r1, 0x71374491, 0x00000000) == r2;
    var r3 := Shifted(r2, 0xc8c347a7, 0xf92939eb);
    assert Round(r2, 0xb5c0fbcf, 0x00000000) == r3;
    var r4 := Shifted(r3, 0xd550f666, 0x24e00850);
    assert Round(r3, 0xe9b5dba5, 0x00000000) == r4;
    var r5 := Shifted(r4, 0x04409a6a, 0x43ada245);
    assert Round(r4, 0x3956c25b, 0x00000000) == r5;
    var r6 := Shifted(r5, 0x2b4209f5, 0x714260ad);
    assert Round(r5, 0x59f111f1, 0x00000000) == r6;
    var r7 := Shifted(r6, 0xe5030380, 0x9b27a401);
    assert Round(r6, 0x923f82a4, 0x00000000) == r7;
    var r8 := Shifted(r7, 0x85a07b5f, 0x0c657a79);
    assert Round(r7, 0xab1c5ed5, 0x00000000) == r8;
    hide Round;
  }

  lemma Rounds8()
    ensures EightRounds(STATE_8, ROW_1, WORDS_8) == STATE_16
  {
    var r1 := Shifted(STATE_8, 0x8e04ecb9, 0x32ca2d8c);
    assert Round(STATE_8, 0xd807aa98, 0x00000000) == r1;
    var r2 := Shifted(r1, 0x8c87346b, 0x1cc92596);
    assert Round(r1, 0x12835b01, 0x00000000) == r2;
    var r3 := Shifted(r2, 0x4798a3f4, 0x436b23e8);
    assert Round(r2, 0x243185be, 0x00000000) == r3;
    var r4 := Shifted(r3, 0xf71fc5a9, 0x816fd6e9);
    assert Round(r3, 0x550c7dc3, 0x00000000) == r4;
    var r5 := Shifted(r4, 0x87912990, 0x1e578218);
    assert Round(r4, 0x72be5d74, 0x00000000) == r5;
    var r6 := Shifted(r5, 0xd932eb16, 0x745a48de);
    assert Round(r5, 0x80deb1fe, 0x00000000) == r6;
    var r7 := Shifted(r6, 0xc0645fde, 0x0b92f20c);
    assert Round(r6, 0x9bdc06a7, 0x00000000) == r7;
    var r8 := Shifted(r7, 0xb0fa238e, 0x07590dcd);
    assert Round(r7, 0xc19bf174, 0x00000018) == r8;
    hide Round;
  }

  lemma Rounds16()
    ensures EightRounds(STATE_16, ROW_2, WORDS_16) == STATE_24
  {
    var r1 := Shifted(STATE_16, 0x21da9a9b, 0x8034229c);
    assert Round(STATE_16, 0xe49b69c1, 0x61626380) == r1;
    var r2 := Shifted(r1, 0xc2fbd9d1, 0x846ee454);
    assert Round(r1, 0xefbe4786, 0x000f0000) == r2;
    var r3 := Shifted(r2, 0xfe777bbf, 0xcc899961);
    assert Round(r2, 0x0fc19dc6, 0x7da86405) == r3;
    var r4 := Shifted(r3, 0xe1f20c33, 0xb0638179);
    assert Round(r3, 0x240ca1cc, 0x600003c6) == r4;
    var r5 := Shifted(r4, 0x9dc68b63, 0x8ada8930);
    assert Round(r4, 0x2de92c6f, 0x3e9d7b78) == r5;
    var r6 := Shifted(r5, 0xc2606d6d, 0xe1257970);
    assert Round(r5, 0x4a7484aa, 0x0183fc00) == r6;
    var r7 := Shifted(r6, 0xa7a3623f, 0x49f5114a);
    assert Round(r6, 0x5cb0a9dc, 0x12dcbfdb) == r7;
    var r8 := Shifted(r7, 0xc5d53d8d, 0xaa47c347);
    assert Round(r7, 0x76f988da, 0xe2e2c38e) == r8;
    hide Round;
  }

  lemma Rounds24()
    ensures EightRounds(STATE_24, ROW_3, WORDS_24) == STATE_32
  {
    var r1 := Shifted(STATE_24, 0x1c2c2838, 0x2823ef91);
    assert Round(STATE_24, 0x983e5152, 0xc8215c1a) == r1;
    var r2 := Shifted(r1, 0xcde8037d, 0x14383d8e);
    assert Round(r1, 0xa831c66d, 0xb73679a2) == r2;
    var r3 := Shifted(r2, 0xb62ec4bc, 0xc74c6516);
    assert Round(r2, 0xb00327c8, 0xe5bc3909) == r3;
    var r4 := Shifted(r3, 0x77d37528, 0xedffbff8);
    assert Round(r3, 0xbf597fc7, 0x32663c5b) == r4;
    var r5 := Shifted(r4, 0x363482c9, 0x6112a3b7);
    assert Round(r4, 0xc6e00bf3, 0x9d209d67) == r5;
    var r6 := Shifted(r5, 0xa0060b30, 0xade79437);
    assert Round(r5, 0xd5a79147, 0xec8726cb) == r6;
    var r7 := Shifted(r6, 0xea992a22, 0x0109ab3a);
    assert Round(r6, 0x06ca6351, 0x702138a4) == r7;
    var r8 := Shifted(r7, 0x73b33bf5, 0xba591112);
    assert Round(r7, 0x14292967, 0xd3b7973b) == r8;
    hide Round;
  }

  lemma Rounds32()
    ensures EightRounds(STATE_32, ROW_4, WORDS_32) == STATE_40
  {
    var r1 := Shifted(STATE_32, 0x98e12507, 0x9cd9f5f6);
    assert Round(STATE_32, 0x27b70a85, 0x93f5997f) == r1;
    var r2 := Shifted(r1, 0xfe604df5, 0x59249dd3);
    assert Round(r1, 0x2e1b2138, 0x3b68ba73) == r2;
    var r3 := Shifted(r2, 0xa9a7738c, 0x085f3833);
    assert Round(r2, 0x4d2c6dfc, 0xaff4ffc1) == r3;
    var r4 := Shifted(r3, 0x65a0cfe4, 0xf4b002d6);
    assert Round(r3, 0x53380d13, 0xf10a5c62) == r4;
    var r5 := Shifted(r4, 0x41a65cb1, 0x0772a26b);
    assert Round(r4, 0x650a7354, 0x0a8b3996) == r5;
    var r6 := Shifted(r5, 0x34df1604, 0xa507a53d);
    assert Round(r5, 0x766a0abb, 0x72af830a) == r6;
    var r7 := Shifted(r6, 0x6dc57a8a, 0xf0781bc8);
    assert Round(r6, 0x81c2c92e, 0x9409e33e) == r7;
    var r8 := Shifted(r7, 0x79ea687a, 0x1efbc0a0);
    assert Round(r7, 0x92722c85, 0x24641522) == r8;
    hide Round;
  }

  lemma Rounds40()
    ensures EightRounds(STATE_40, ROW_5, WORDS_40) == STATE_48
  {
    var r1 := Shifted(STATE_40, 0xd6670766, 0x26352d63);
    assert Round(STATE_40, 0xa2bfe8a1, 0x9f47bf94) == r1;
    var r2 := Shifted(r1, 0xdf46652f, 0x838b2711);
    assert Round(r1, 0xa81a664b, 0xf0a64f5a) == r2;
    var r3 := Shifted(r2, 0x17aa0dfe, 0xdecd4715);
    assert Round(r2, 0xc24b8b70, 0x3e246a79) == r3;
    var r4 := Shifted(r3, 0x9d4baf93, 0xfda24c2e);
    assert Round(r3, 0xc76c51a3, 0x27333ba3) == r4;
    var r5 := Shifted(r4, 0x26628815, 0xa80f11f0);
    assert Round(r4, 0xd192e819, 0x0c4763f2) == r5;
    var r6 := Shifted(r5, 0x72ab4b91, 0xb7755da1);
    assert Round(r5, 0xd6990624, 0x840abf27) == r6;
    var r7 := Shifted(r6, 0xa14c14b0, 0xd57b94a9);
    assert Round(r6, 0xf40e3585, 0x7a290d5d) == r7;
    var r8 := Shifted(r7, 0x4172328d, 0xfecf0bc6);
    assert Round(r7, 0x106aa070, 0x065c43da) == r8;
    hide Round;
  }

  lemma Rounds48()
    ensures EightRounds(STATE_48, ROW_6, WORDS_48) == STATE_56
  {
    var r1 := Shifted(STATE_48, 0x05757ceb, 0xbd714038);
    assert Round(STATE_48, 0x19a4c116, 0xfb3e89cb) == r1;
    var r2 := Shifted(r1, 0xf11bfaa8, 0x6e5c390c);
    assert Round(r1, 0x1e376c08, 0xcc7617db) == r2;
    var r3 := Shifted(r2, 0x7a0508a1, 0x52f1ccf7);
    assert Round(r2, 0x2748774c, 0xb9e66c34) == r3;
    var r4 := Shifted(r3, 0x886e7a22, 0x49231c1e);
    assert Round(r3, 0x34b0bcb5, 0xa9993667) == r4;
    var r5 := Shifted(r4, 0x101fd28f, 0x529e7d00);
    assert Round(r4, 0x391c0cb3, 0x84badedd) == r5;
    var r6 := Shifted(r5, 0xf5702fdb, 0x9f4787c3);
    assert Round(r5, 0x4ed8aa4a, 0xc21462bc) == r6;
    var r7 := Shifted(r6, 0x3ec45cdb, 0xe50e1b4f);
    assert Round(r6, 0x5b9cca4f, 0x1487472c) == r7;
    var r8 := Shifted(r7, 0x38cc9913, 0x54cb266b);
    assert Round(r7, 0x682e6ff3, 0xb20f7a99) == r8;
    hide Round;
  }

  lemma Rounds56()
    ensures EightRounds(STATE_56, ROW_7, WORDS_56) == STATE_64
  {
    var r1 := Shifted(STATE_56, 0xfcd1887b, 0x9b5e906c);
    assert Round(STATE_56, 0x748f82ee, 0xef57b9cd) == r1;
    var r2 := Shifted(r1, 0xc062d46f, 0x7e44008e);
    assert Round(r1, 0x78a5636f, 0xebe6b238) == r2;
    var r3 := Shifted(r2, 0xffb70472, 0x6d83bfc6);
    assert Round(r2, 0x84c87814, 0x9fe3095e) == r3;
    var r4 := Shifted(r3, 0xb6ae8fff, 0xb21bad3d);
    assert Round(r3, 0x8cc70208, 0x78bc8d4b) == r4;
    var r5 := Shifted(r4, 0xb85e2ce9, 0x961f4894);
    assert Round(r4, 0x90befffa, 0xa43fcf15) == r5;
    var r6 := Shifted(r5, 0x04d24d6c, 0x948d25b6);
    assert Round(r5, 0xa4506ceb, 0x668b2ff8) == r6;
    var r7 := Shifted(r6, 0xd39a2165, 0xfb121210);
    assert Round(r6, 0xbef9a3f7, 0xeeaba2cc) == r7;
    var r8 := Shifted(r7, 0x506e3058, 0x5ef50f24);
    assert Round(r7, 0xc67178f2, 0x12b1edeb) == r8;
    hide Round;
  }

  lemma RoundsOfBlock()
    ensures |Pad(ABC)| == 64 == |CONSTANTS| && Rounds(INITIAL, Pad(ABC), 64) == STATE_64
  {
    RowsOfConstants();
    PaddedAbc();
    WordsOfSchedule();
    hide WordsFrom, EightRounds, CONSTANTS, Pad;
    NoRounds(Pad(ABC));
    hide Rounds;
    RoundsFollow(0, ROW_0, WORDS_0);
    Rounds0();
    RoundsFollow(8, ROW_1, WORDS_8);
    Rounds8();
    RoundsFollow(16, ROW_2, WORDS_16);
    Rounds16();
    RoundsFollow(24, ROW_3, WORDS_24);
    Rounds24();
    RoundsFollow(32, ROW_4, WORDS_32);
    Rounds32();
    RoundsFollow(40, ROW_5, WORDS_40);
    Rounds40();
    RoundsFollow(48, ROW_6, WORDS_48);
    Rounds48();
    RoundsFollow(56, ROW_7, WORDS_56);
    Rounds56();
  }

  lemma NoRounds(block: seq<Octet>)
    requires |block| == 64
    ensures Rounds(INITIAL, block, 0) == STATE_0
  {
  }

  lemma DigestOfAbc()
    ensures DigestOf(AddRegisters(INITIAL, STATE_64))
      == [0xba, 0x78, 0x16, 0xbf, 0x8f, 0x01, 0xcf, 0xea, 0x41, 0x41, 0x40, 0xde, 0x5d, 0xae, 0x22, 0x23,
          0xb0, 0x03, 0x61, 0xa3, 0x96, 0x17, 0x7a, 0x9c, 0xb4, 0x10, 0xff, 0x61, 0xf2, 0x00, 0x15, 0xad]
  {
  }

  lemma OneBlock(block: seq<Octet>)
    requires |block| == 64 == |CONSTANTS|
    ensures HashBlocks(block, 1) == AddRegisters(INITIAL, Rounds(INITIAL, block, 64))
  {
    hide Rounds, AddRegisters, CONSTANTS, INITIAL;
    assert block[0..64] == block;
    assert HashBlocks(block, 0) == INITIAL;
  }

  /** The known answer. */
  lemma HashOfAbc()
    ensures Sha256.Sha256(ABC)
      == [0xba, 0x78, 0x16, 0xbf, 0x8f, 0x01, 0xcf, 0xea, 0x41, 0x41, 0x40, 0xde, 0x5d, 0xae, 0x22, 0x23,
          0xb0, 0x03, 0x61, 0xa3, 0x96, 0x17, 0x7a, 0x9c, 0xb4, 0x10, 0xff, 0x61, 0xf2, 0x00, 0x15, 0xad]
  {
    RoundsOfBlock();
    hide Rounds, Pad, DigestOf, AddRegisters, CONSTANTS, INITIAL;
    DigestOfAbc();
    OneBlock(Pad(ABC));
  }
}
