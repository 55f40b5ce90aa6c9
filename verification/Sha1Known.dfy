/** What fixes the functions and constants of Sha1Spec from outside: their meaning bit by bit and in numbers, and
    the digest of "abc". */
module Sha1Known {
  import opened Octets
  import opened BlockFold
  import opened Sha1Padding
  import opened Sha1Spec
  import Streaming = Sha1

  /** Bit i of a word. */
  function Bit(x: Word, i: Word): Word
    requires i < 32
  {
    (x >> i) & 1
  }

  /** Rotating to the left by n moves bit i to bit i + n modulo 32, for the three amounts of SHA-1. */
  lemma RotateBits(x: Word, i: Word)
    requires i < 32
    ensures Bit(Rotl(x, 1), (i + 1) % 32) == Bit(x, i)
    ensures Bit(Rotl(x, 5), (i + 5) % 32) == Bit(x, i)
    ensures Bit(Rotl(x, 30), (i + 30) % 32) == Bit(x, i)
  {
    RotateOne(x, i);
    RotateFive(x, i);
    RotateThirty(x, i);
  }

  lemma RotateOne(x: Word, i: Word)
    requires i < 32
    ensures Bit(Rotl(x, 1), (i + 1) % 32) == Bit(x, i)
  {
  }

  lemma RotateFive(x: Word, i: Word)
    requires i < 32
    ensures Bit(Rotl(x, 5), (i + 5) % 32) == Bit(x, i)
  {
  }

  lemma RotateThirty(x: Word, i: Word)
    requires i < 32
    ensures Bit(Rotl(x, 30), (i + 30) % 32) == Bit(x, i)
  {
  }

  /** The constant of round t is the integer part of 2^30 times the square root of 2, 3, 5 or 10. */
  lemma SquareRoots(t: nat)
    requires t < 80
    ensures var k, c := K(t) as nat, [2, 3, 5, 10][t / 20];
      k * k <= c * 0x1000_0000_0000_0000 < (k + 1) * (k + 1)
  {
  }

  lemma WordIsValue(block: Block, t: nat)
    requires t < 16
    ensures var v := Value(block[4 * t..4 * t + 4]); v < 0x1_0000_0000 && BlockWord(block, t) == ToWord(v)
  {
    var o := block[4 * t..4 * t + 4];
    ReadsValue(o);
    assert o == [block[4 * t], block[4 * t + 1], block[4 * t + 2], block[4 * t + 3]];
  }

  /** The digest is the five words as one number, the first most significant. */
  lemma DigestValue(h: Hash)
    ensures |Digest(h)| == 20
    ensures Value(Digest(h)) == FiveWords(h[0] as nat, h[1] as nat, h[2] as nat, h[3] as nat, h[4] as nat)
  {
    ValueOfFive(h[0] as nat, h[1] as nat, h[2] as nat, h[3] as nat, h[4] as nat);
  }

  function FiveWords(a: nat, b: nat, c: nat, d: nat, e: nat): nat {
    Then(Then(Then(Then(a, b), c), d), e)
  }

  function Then(v: nat, word: nat): nat { 0x1_0000_0000 * v + word }

  lemma ValueOfFive(a: nat, b: nat, c: nat, d: nat, e: nat)
    requires a < 0x1_0000_0000 && b < 0x1_0000_0000 && c < 0x1_0000_0000 && d < 0x1_0000_0000 && e < 0x1_0000_0000
    ensures Value(Written(a, b, c, d, e)) == FiveWords(a, b, c, d, e) && |Written(a, b, c, d, e)| == 20
  {
    ValueOfU32(a);
    var two := OneMoreWord(PutU32(a), a, b);
    var three := OneMoreWord(two, Then(a, b), c);
    var four := OneMoreWord(three, Then(Then(a, b), c), d);
    var five := OneMoreWord(four, Then(Then(Then(a, b), c), d), e);
  }

  lemma OneMoreWord(s: seq<Octet>, v: nat, word: nat) returns (t: seq<Octet>)
    requires Value(s) == v && word < 0x1_0000_0000
    ensures t == s + PutU32(word) && Value(t) == Then(v, word)
  {
    t := s + PutU32(word);
    ValueAfterU32(s, word);
  }

  // The example "abc" of appendix A.1 of FIPS 180-2 -------------------------------------------------

  const ABC: seq<Octet> := [0x61, 0x62, 0x63]

  type Sixteen = w: seq<Word> | |w| == 16 witness seq(16, _ => 0)

  /** The words of the schedule from t on. */
  ghost predicate From(block: Block, t: nat, w: seq<Word>) {
    forall i :: 0 <= i < |w| ==> w[i] == Schedule(block, t + i)
  }

  /** Element i of a sequence is made of the elements i - 3, i - 8, i - 14 and i - 16. */
  ghost predicate Made<T>(mix: (T, T, T, T) -> T, all: seq<T>, i: nat)
    requires 16 <= i < |all|
  {
    all[i] == mix(all[i - 3], all[i - 8], all[i - 14], all[i - 16])
  }

  ghost predicate Recurrent<T>(mix: (T, T, T, T) -> T, all: seq<T>) {
    forall i :: 16 <= i < |all| ==> Made(mix, all, i)
  }

  lemma EachMade<T>(mix: (T, T, T, T) -> T, all: seq<T>)
    requires |all| == 32
    requires Made(mix, all, 16) && Made(mix, all, 17) && Made(mix, all, 18) && Made(mix, all, 19)
    requires Made(mix, all, 20) && Made(mix, all, 21) && Made(mix, all, 22) && Made(mix, all, 23)
    requires Made(mix, all, 24) && Made(mix, all, 25) && Made(mix, all, 26) && Made(mix, all, 27)
    requires Made(mix, all, 28) && Made(mix, all, 29) && Made(mix, all, 30) && Made(mix, all, 31)
    ensures Recurrent(mix, all)
  {
  }

  /** The first sixteen elements determine the rest. */
  lemma {:induction false} Determined<T>(mix: (T, T, T, T) -> T, a: seq<T>, b: seq<T>, n: nat)
    requires |a| == |b| && n <= |a| && Recurrent(mix, a) && Recurrent(mix, b)
    requires forall i :: 0 <= i < 16 && i < |a| ==> a[i] == b[i]
    ensures forall i :: 0 <= i < n ==> a[i] == b[i]
  {
    if n > 16 {
      Determined(mix, a, b, n - 1);
      assert Made(mix, a, n - 1) && Made(mix, b, n - 1);
    } else if n > 0 {
      Determined(mix, a, b, n - 1);
    }
  }

  /** Sixteen more elements. */
  function Further<T>(mix: (T, T, T, T) -> T, w: seq<T>): (x: seq<T>)
    requires |w| == 16
    ensures |x| == 16 && Recurrent(mix, w + x)
  {
    var x0 := mix(w[13], w[8], w[2], w[0]);
    var x1 := mix(w[14], w[9], w[3], w[1]);
    var x2 := mix(w[15], w[10], w[4], w[2]);
    var x3 := mix(x0, w[11], w[5], w[3]);
    var x4 := mix(x1, w[12], w[6], w[4]);
    var x5 := mix(x2, w[13], w[7], w[5]);
    var x6 := mix(x3, w[14], w[8], w[6]);
    var x7 := mix(x4, w[15], w[9], w[7]);
    var x8 := mix(x5, x0, w[10], w[8]);
    var x9 := mix(x6, x1, w[11], w[9]);
    var x10 := mix(x7, x2, w[12], w[10]);
    var x11 := mix(x8, x3, w[13], w[11]);
    var x12 := mix(x9, x4, w[14], w[12]);
    var x13 := mix(x10, x5, w[15], w[13]);
    var x14 := mix(x11, x6, x0, w[14]);
    var x15 := mix(x12, x7, x1, w[15]);
    var x := [x0, x1, x2, x3, x4, x5, x6, x7, x8, x9, x10, x11, x12, x13, x14, x15];
    EachMade(mix, w + x);
    x
  }

  function MixWords(p: Word, q: Word, r: Word, s: Word): Word { Rotl(p ^ q ^ r ^ s, 1) }

  lemma ContinuesSchedule(block: Block, t: nat, w: Sixteen, x: Sixteen)
    requires From(block, t, w) && Recurrent(MixWords, w + x)
    ensures From(block, t + 16, x)
  {
    var all := seq(32, i requires 0 <= i < 32 => Schedule(block, t + i));
    forall i | 16 <= i < 32 ensures Made(MixWords, all, i) {
      OneWord(block, t + i, all[i - 3], all[i - 8], all[i - 14], all[i - 16]);
    }
    Determined(MixWords, w + x, all, 32);
    assert forall i :: 0 <= i < 16 ==> (w + x)[16 + i] == x[i];
  }

  lemma OneWord(block: Block, i: nat, p: Word, q: Word, r: Word, s: Word)
    requires i >= 16 && p == Schedule(block, i - 3) && q == Schedule(block, i - 8)
    requires r == Schedule(block, i - 14) && s == Schedule(block, i - 16)
    ensures Schedule(block, i) == MixWords(p, q, r, s)
  {
  }

  /** Rounds t to t + 15 with these words. */
  function SixteenRounds(s: Hash, t: nat, w: Sixteen): Hash {
    var s1 := Round(s, t, w[0]);
    var s2 := Round(s1, t + 1, w[1]);
    var s3 := Round(s2, t + 2, w[2]);
    var s4 := Round(s3, t + 3, w[3]);
    var s5 := Round(s4, t + 4, w[4]);
    var s6 := Round(s5, t + 5, w[5]);
    var s7 := Round(s6, t + 6, w[6]);
    var s8 := Round(s7, t + 7, w[7]);
    var s9 := Round(s8, t + 8, w[8]);
    var s10 := Round(s9, t + 9, w[9]);
    var s11 := Round(s10, t + 10, w[10]);
    var s12 := Round(s11, t + 11, w[11]);
    var s13 := Round(s12, t + 12, w[12]);
    var s14 := Round(s13, t + 13, w[13]);
    var s15 := Round(s14, t + 14, w[14]);
    var s16 := Round(s15, t + 15, w[15]);
    s16
  }

  lemma SixteenSteps(s: Hash, block: Block, t: nat, w: Sixteen)
    requires t + 16 <= 80 && From(block, t, w)
    ensures Rounds(s, Words(block)[..t + 16]) == SixteenRounds(Rounds(s, Words(block)[..t]), t, w)
  {
    Streaming.RoundsStep(s, block, t);
    Streaming.RoundsStep(s, block, t + 1);
    Streaming.RoundsStep(s, block, t + 2);
    Streaming.RoundsStep(s, block, t + 3);
    Streaming.RoundsStep(s, block, t + 4);
    Streaming.RoundsStep(s, block, t + 5);
    Streaming.RoundsStep(s, block, t + 6);
    Streaming.RoundsStep(s, block, t + 7);
    Streaming.RoundsStep(s, block, t + 8);
    Streaming.RoundsStep(s, block, t + 9);
    Streaming.RoundsStep(s, block, t + 10);
    Streaming.RoundsStep(s, block, t + 11);
    Streaming.RoundsStep(s, block, t + 12);
    Streaming.RoundsStep(s, block, t + 13);
    Streaming.RoundsStep(s, block, t + 14);
    Streaming.RoundsStep(s, block, t + 15);
  }

  // The words of the schedule of "abc", and a to e after each sixteen rounds.
  const W0: Sixteen :=
    [0x61626380, 0x00000000, 0x00000000, 0x00000000, 0x00000000, 0x00000000, 0x00000000, 0x00000000,
     0x00000000, 0x00000000, 0x00000000, 0x00000000, 0x00000000, 0x00000000, 0x00000000, 0x00000018]
  const W1: Sixteen :=
    [0xC2C4C700, 0x00000000, 0x00000030, 0x85898E01, 0x00000000, 0x00000060, 0x0B131C03, 0x00000030,
     0x85898EC1, 0x16263806, 0x00000000, 0x00000180, 0x2C4C700C, 0x000000F0, 0x93AFB507, 0x5898E048]
  const W2: Sixteen :=
    [0x8E9A9202, 0x00000600, 0xB131C0F0, 0x16263BC6, 0x4EBED41E, 0x626380A1, 0x16263806, 0x000018C0,
     0xD2E138C4, 0x00000F00, 0x3AFB5079, 0x898E04E5, 0xE2BA3C2B, 0x000060C0, 0x053A37CD, 0x74458547]
  const W3: Sixteen :=
    [0xDA9415ED, 0x26380A16, 0x626383A1, 0x4EBF54DE, 0x3835B44B, 0x0000F600, 0x1E84C7A3, 0x98E04D98,
     0x651D16A0, 0x62658CA1, 0x458544D6, 0x44584CB7, 0x7BA06619, 0x6380AEA2, 0x0AE55269, 0x627B49A1]
  const W4: Sixteen :=
    [0x7CD45C9D, 0x000F0000, 0xFB50753A, 0xEC6765E8, 0xBA3C2BE2, 0x0060C000, 0x3A37CD05, 0x458546F4,
     0xB8599DD6, 0x380A1A26, 0x01E02203, 0xE7CC3456, 0xE6E60B69, 0x00F60A00, 0x5795EF4F, 0x822E0879]
  const S1: Hash := [0x20BDD62F, 0x196BEE77, 0x644A3DA5, 0x1181ED99, 0x18C623F9]
  const S2: Hash := [0x3B845D33, 0x1267B407, 0x717EEBD7, 0xA0DC2D4B, 0xD2AA1365]
  const S3: Hash := [0xBEAD02CA, 0xA01B846C, 0x8714787C, 0x503CA382, 0xFB86C6AB]
  const S4: Hash := [0x6B61C9E1, 0xB66C020B, 0x9523272C, 0xF5D5B051, 0x8FD4B796]
  const S5: Hash := [0x42541B35, 0x5738D5E1, 0x21834873, 0x681E6DF6, 0xD8FDF6AD]

  lemma Words1()
    ensures Recurrent(MixWords, W0 + W1)
  {
    assert Further(MixWords, W0) == W1;
  }

  lemma Words2()
    ensures Recurrent(MixWords, W1 + W2)
  {
    assert Further(MixWords, W1) == W2;
  }

  lemma Words3()
    ensures Recurrent(MixWords, W2 + W3)
  {
    assert Further(MixWords, W2) == W3;
  }

  lemma Words4()
    ensures Recurrent(MixWords, W3 + W4)
  {
    assert Further(MixWords, W3) == W4;
  }

  lemma Rounds1()
    ensures SixteenRounds(INITIAL, 0, W0) == S1
  {
  }

  lemma Rounds2()
    ensures SixteenRounds(S1, 16, W1) == S2
  {
  }

  lemma Rounds3()
    ensures SixteenRounds(S2, 32, W2) == S3
  {
  }

  lemma Rounds4()
    ensures SixteenRounds(S3, 48, W3) == S4
  {
  }

  lemma Rounds5()
    ensures SixteenRounds(S4, 64, W4) == S5
  {
  }

  /** One more step of sixteen rounds. */
  lemma Go(block: Block, t: nat, w: Sixteen, s: Hash, r: Hash)
    requires t + 16 <= 80 && From(block, t, w)
    requires Rounds(INITIAL, Words(block)[..t]) == s && SixteenRounds(s, t, w) == r
    ensures Rounds(INITIAL, Words(block)[..t + 16]) == r
  {
    SixteenSteps(INITIAL, block, t, w);
  }

  lemma ScheduleOfAbc(block: Block)
    requires From(block, 0, W0)
    ensures From(block, 16, W1) && From(block, 32, W2) && From(block, 48, W3) && From(block, 64, W4)
  {
    Words1();
    ContinuesSchedule(block, 0, W0, W1);
    Words2();
    ContinuesSchedule(block, 16, W1, W2);
    Words3();
    ContinuesSchedule(block, 32, W2, W3);
    Words4();
    ContinuesSchedule(block, 48, W3, W4);
  }

  lemma Reach1(block: Block)
    requires From(block, 0, W0) && Rounds(INITIAL, Words(block)[..0]) == INITIAL
    ensures Rounds(INITIAL, Words(block)[..16]) == S1
  {
    Rounds1();
    Go(block, 0, W0, INITIAL, S1);
  }

  lemma Reach2(block: Block)
    requires From(block, 16, W1) && Rounds(INITIAL, Words(block)[..16]) == S1
    ensures Rounds(INITIAL, Words(block)[..32]) == S2
  {
    Rounds2();
    Go(block, 16, W1, S1, S2);
  }

  lemma Reach3(block: Block)
    requires From(block, 32, W2) && Rounds(INITIAL, Words(block)[..32]) == S2
    ensures Rounds(INITIAL, Words(block)[..48]) == S3
  {
    Rounds3();
    Go(block, 32, W2, S2, S3);
  }

  lemma Reach4(block: Block)
    requires From(block, 48, W3) && Rounds(INITIAL, Words(block)[..48]) == S3
    ensures Rounds(INITIAL, Words(block)[..64]) == S4
  {
    Rounds4();
    Go(block, 48, W3, S3, S4);
  }

  lemma Reach5(block: Block)
    requires From(block, 64, W4) && Rounds(INITIAL, Words(block)[..64]) == S4
    ensures Rounds(INITIAL, Words(block)[..80]) == S5
  {
    Rounds5();
    Go(block, 64, W4, S4, S5);
  }

  lemma RoundsOfAbc(block: Block)
    requires From(block, 0, W0)
    ensures Rounds(INITIAL, Words(block)) == S5
  {
    ScheduleOfAbc(block);
    assert Words(block)[..0] == [] && Words(block)[..80] == Words(block);
    Reach1(block);
    Reach2(block);
    Reach3(block);
    Reach4(block);
    Reach5(block);
  }

  /** Its only block: the octets of 0x61626380, zeros, and the length 24. */
  lemma OctetsOfAbc()
    ensures var block := ABC + Padding(3);
      && |block| == 64 && block[..4] == [0x61, 0x62, 0x63, 0x80] && block[63] == 24
      && forall i :: 4 <= i < 63 ==> block[i] == 0
  {
    var field := LengthField(3);
    assert field == [0, 0, 0, 0, 0, 0, 0, 24];
    var block := ABC + Padding(3);
    assert block[56..] == field;
    assert forall i :: 56 <= i < 64 ==> block[i] == field[i - 56];
  }

  lemma WordsOfAbc(block: Block)
    requires block[..4] == [0x61, 0x62, 0x63, 0x80] && block[63] == 24 && forall i :: 4 <= i < 63 ==> block[i] == 0
    ensures From(block, 0, W0)
  {
    var first := block[..4];
    assert block[0] == first[0] && block[1] == first[1] && block[2] == first[2] && block[3] == first[3];
    FirstWord(block);
    LastWord(block);
    forall t | 0 < t < 15 ensures Schedule(block, t) == 0 {
      ZeroWord(block, t);
    }
    AllSixteen(seq(16, i requires 0 <= i < 16 => Schedule(block, i)));
  }

  lemma AllSixteen(s: Sixteen)
    requires s[0] == 0x61626380 && s[15] == 0x18 && forall t :: 0 < t < 15 ==> s[t] == 0
    ensures s == W0
  {
  }

  lemma ZeroWord(block: Block, t: nat)
    requires t < 16 && forall i :: 4 * t <= i < 4 * t + 4 ==> block[i] == 0
    ensures Schedule(block, t) == 0
  {
    WordOf(block, t, 0, 0, 0, 0, 0);
  }

  lemma FirstWord(block: Block)
    requires block[0] == 0x61 && block[1] == 0x62 && block[2] == 0x63 && block[3] == 0x80
    ensures Schedule(block, 0) == 0x61626380
  {
    WordOf(block, 0, 0x61, 0x62, 0x63, 0x80, 0x61626380);
    assert ToWord(0x61626380) == 0x61626380;
  }

  lemma LastWord(block: Block)
    requires block[60] == 0 && block[61] == 0 && block[62] == 0 && block[63] == 24
    ensures Schedule(block, 15) == 0x18
  {
    WordOf(block, 15, 0, 0, 0, 24, 24);
  }

  lemma WordOf(block: Block, t: nat, a: Octet, b: Octet, c: Octet, d: Octet, n: nat)
    requires t < 16 && block[4 * t] == a && block[4 * t + 1] == b && block[4 * t + 2] == c && block[4 * t + 3] == d
    requires n == Number(a, b, c, d)
    ensures n < 0x1_0000_0000 && Schedule(block, t) == ToWord(n)
  {
  }

  const SUM: Hash := [0xA9993E36, 0x4706816A, 0xBA3E2571, 0x7850C26C, 0x9CD0D89D]

  lemma SumOfAbc()
    ensures Plus(INITIAL, S5) == SUM
  {
  }

  lemma NumbersOfSum()
    ensures SUM[0] as nat == 0xA9993E36 && SUM[1] as nat == 0x4706816A && SUM[2] as nat == 0xBA3E2571
    ensures SUM[3] as nat == 0x7850C26C && SUM[4] as nat == 0x9CD0D89D
  {
  }

  lemma OctetsOfNumbers()
    ensures PutU32(0xA9993E36) == [0xA9, 0x99, 0x3E, 0x36]
    ensures PutU32(0x4706816A) == [0x47, 0x06, 0x81, 0x6A]
    ensures PutU32(0xBA3E2571) == [0xBA, 0x3E, 0x25, 0x71]
    ensures PutU32(0x7850C26C) == [0x78, 0x50, 0xC2, 0x6C]
    ensures PutU32(0x9CD0D89D) == [0x9C, 0xD0, 0xD8, 0x9D]
  {
  }

  lemma DigestOfSum()
    ensures Digest(SUM) == [0xA9, 0x99, 0x3E, 0x36, 0x47, 0x06, 0x81, 0x6A, 0xBA, 0x3E,
                          0x25, 0x71, 0x78, 0x50, 0xC2, 0x6C, 0x9C, 0xD0, 0xD8, 0x9D]
  {
    NumbersOfSum();
    OctetsOfNumbers();
  }

  lemma CompressAbc(block: Block)
    requires From(block, 0, W0)
    ensures Compress(INITIAL, block) == SUM
  {
    RoundsOfAbc(block);
    SumOfAbc();
  }

  /** The 160-bit digest of "abc". */
  lemma DigestOfAbc()
    ensures Sha1(ABC) == [0xA9, 0x99, 0x3E, 0x36, 0x47, 0x06, 0x81, 0x6A, 0xBA, 0x3E,
                           0x25, 0x71, 0x78, 0x50, 0xC2, 0x6C, 0x9C, 0xD0, 0xD8, 0x9D]
  {
    var block := ABC + Padding(3);
    OctetsOfAbc();
    WordsOfAbc(block);
    CompressAbc(block);
    OneBlock(block);
    DigestOfSum();
  }

  lemma OneBlock(block: Block)
    ensures Fold(Compress, INITIAL, block) == Compress(INITIAL, block)
  {
    assert block[..64] == block && block[64..] == [];
  }

  /** The code computes it, however the three octets are appended. */
  method HashAbc(pieces: seq<seq<Octet>>) returns (digest: seq<Octet>)
    requires Flat(pieces) == [0x61, 0x62, 0x63]
    ensures digest == [0xA9, 0x99, 0x3E, 0x36, 0x47, 0x06, 0x81, 0x6A, 0xBA, 0x3E,
                       0x25, 0x71, 0x78, 0x50, 0xC2, 0x6C, 0x9C, 0xD0, 0xD8, 0x9D]
  {
    forall i | 0 <= i < |pieces| ensures |pieces[i]| < 0x1_0000_0000 {
      PieceFits(pieces, i);
    }
    digest := Streaming.HashPieces(pieces);
    DigestOfAbc();
  }

  lemma PieceFits(pieces: seq<seq<Octet>>, i: nat)
    requires i < |pieces|
    ensures |pieces[i]| <= |Flat(pieces)|
  {
    Streaming.FirstPieces(pieces, i);
    FlatAppend(pieces[..i + 1], pieces[i + 1..]);
    assert pieces[..i + 1] + pieces[i + 1..] == pieces;
  }
}
