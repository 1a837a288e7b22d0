/** Where the constants of SHA-256 come from (sections 4.2.2 and 5.3.3 of FIPS 180-4), and what its
    logical functions mean bit by bit (section 4.1.2). */
module Sha256Constants {
  import opened Bytes
  import opened Sha256Spec

  /** The first 64 primes. */
  const PRIMES: seq<nat> :=
    [2, 3, 5, 7, 11, 13, 17, 19] +
    [23, 29, 31, 37, 41, 43, 47, 53] +
    [59, 61, 67, 71, 73, 79, 83, 89] +
    [97, 101, 103, 107, 109, 113, 127, 131] +
    [137, 139, 149, 151, 157, 163, 167, 173] +
    [179, 181, 191, 193, 197, 199, 211, 223] +
    [227, 229, 233, 239, 241, 251, 257, 263] +
    [269, 271, 277, 281, 283, 293, 307, 311]

  const TWO32: nat := 0x1_0000_0000

  /** Whole part of the cube root of a number below 343. */
  function CubeFloor(p: nat): nat {
    if p < 8 then 1 else if p < 27 then 2 else if p < 64 then 3 else if p < 125 then 4 else if p < 216 then 5 else 6
  }

  /** The first 32 bits of the fractional part of the cube root of `p`. */
  predicate IsCubeRoot(bits: int, p: nat) {
    var root := CubeFloor(p) * TWO32 + bits;
    0 <= bits < TWO32 && root * root * root <= p * (TWO32 * TWO32 * TWO32) < (root + 1) * (root + 1) * (root + 1)
  }

  /** The first 32 bits of the fractional part of the square root of `p`. */
  predicate IsSquareRoot(bits: int, p: nat) {
    var root := (if p < 4 then 1 else if p < 9 then 2 else if p < 16 then 3 else 4) * TWO32 + bits;
    0 <= bits < TWO32 && root * root <= p * (TWO32 * TWO32) < (root + 1) * (root + 1)
  }

  predicate FromItsPrime(t: nat)
    requires t < 64
  {
    IsCubeRoot(RoundConstant(t) as int, PRIMES[t])
  }

  lemma CubeRoots0()
    ensures forall t :: 0 <= t < 4 ==> FromItsPrime(t)
  {
    assert FromItsPrime(0) && FromItsPrime(1) && FromItsPrime(2) && FromItsPrime(3);
    hide FromItsPrime;
  }

  lemma CubeRoots4()
    ensures forall t :: 4 <= t < 8 ==> FromItsPrime(t)
  {
    assert FromItsPrime(4) && FromItsPrime(5) && FromItsPrime(6) && FromItsPrime(7);
    hide FromItsPrime;
  }

  lemma CubeRoots8()
    ensures forall t :: 8 <= t < 12 ==> FromItsPrime(t)
  {
    assert FromItsPrime(8) && FromItsPrime(9) && FromItsPrime(10) && FromItsPrime(11);
    hide FromItsPrime;
  }

  lemma CubeRoots12()
    ensures forall t :: 12 <= t < 16 ==> FromItsPrime(t)
  {
    assert FromItsPrime(12) && FromItsPrime(13) && FromItsPrime(14) && FromItsPrime(15);
    hide FromItsPrime;
  }

  lemma CubeRoots16()
    ensures forall t :: 16 <= t < 20 ==> FromItsPrime(t)
  {
    assert FromItsPrime(16) && FromItsPrime(17) && FromItsPrime(18) && FromItsPrime(19);
    hide FromItsPrime;
  }

  lemma CubeRoots20()
    ensures forall t :: 20 <= t < 24 ==> FromItsPrime(t)
  {
    assert FromItsPrime(20) && FromItsPrime(21) && FromItsPrime(22) && FromItsPrime(23);
    hide FromItsPrime;
  }

  lemma CubeRoots24()
    ensures forall t :: 24 <= t < 28 ==> FromItsPrime(t)
  {
    assert FromItsPrime(24) && FromItsPrime(25) && FromItsPrime(26) && FromItsPrime(27);
    hide FromItsPrime;
  }

  lemma CubeRoots28()
    ensures forall t :: 28 <= t < 32 ==> FromItsPrime(t)
  {
    assert FromItsPrime(28) && FromItsPrime(29) && FromItsPrime(30) && FromItsPrime(31);
    hide FromItsPrime;
  }

  lemma CubeRoots32()
    ensures forall t :: 32 <= t < 36 ==> FromItsPrime(t)
  {
    assert FromItsPrime(32) && FromItsPrime(33) && FromItsPrime(34) && FromItsPrime(35);
    hide FromItsPrime;
  }

  lemma CubeRoots36()
    ensures forall t :: 36 <= t < 40 ==> FromItsPrime(t)
  {
    assert FromItsPrime(36) && FromItsPrime(37) && FromItsPrime(38) && FromItsPrime(39);
    hide FromItsPrime;
  }

  lemma CubeRoots40()
    ensures forall t :: 40 <= t < 44 ==> FromItsPrime(t)
  {
    assert FromItsPrime(40) && FromItsPrime(41) && FromItsPrime(42) && FromItsPrime(43);
    hide FromItsPrime;
  }

  lemma CubeRoots44()
    ensures forall t :: 44 <= t < 48 ==> FromItsPrime(t)
  {
    assert FromItsPrime(44) && FromItsPrime(45) && FromItsPrime(46) && FromItsPrime(47);
    hide FromItsPrime;
  }

  lemma CubeRoots48()
    ensures forall t :: 48 <= t < 52 ==> FromItsPrime(t)
  {
    assert FromItsPrime(48) && FromItsPrime(49) && FromItsPrime(50) && FromItsPrime(51);
    hide FromItsPrime;
  }

  lemma CubeRoots52()
    ensures forall t :: 52 <= t < 56 ==> FromItsPrime(t)
  {
    assert FromItsPrime(52) && FromItsPrime(53) && FromItsPrime(54) && FromItsPrime(55);
    hide FromItsPrime;
  }

  lemma CubeRoots56()
    ensures forall t :: 56 <= t < 60 ==> FromItsPrime(t)
  {
    assert FromItsPrime(56) && FromItsPrime(57) && FromItsPrime(58) && FromItsPrime(59);
    hide FromItsPrime;
  }

  lemma CubeRoots60()
    ensures forall t :: 60 <= t < 64 ==> FromItsPrime(t)
  {
    assert FromItsPrime(60) && FromItsPrime(61) && FromItsPrime(62) && FromItsPrime(63);
    hide FromItsPrime;
  }

  /** Every round constant comes from the cube root of its prime. */
  lemma RoundConstantsAreCubeRoots(t: nat)
    requires t < 64
    ensures |PRIMES| == 64 && IsCubeRoot(RoundConstant(t) as int, PRIMES[t])
  {
    AllFromTheirPrimes();
    assert FromItsPrime(t);
  }

  lemma AllFromTheirPrimes()
    ensures forall t :: 0 <= t < 64 ==> FromItsPrime(t)
  {
    hide FromItsPrime;
    CubeRoots0(); CubeRoots4(); CubeRoots8(); CubeRoots12();
    CubeRoots16(); CubeRoots20(); CubeRoots24(); CubeRoots28();
    CubeRoots32(); CubeRoots36(); CubeRoots40(); CubeRoots44();
    CubeRoots48(); CubeRoots52(); CubeRoots56(); CubeRoots60();
  }

  predicate FromItsSquareRoot(i: nat)
    requires i < 8
  {
    IsSquareRoot(INITIAL[i] as int, PRIMES[i])
  }

  lemma SquareRoots0()
    ensures forall i :: 0 <= i < 4 ==> FromItsSquareRoot(i)
  {
    assert FromItsSquareRoot(0) && FromItsSquareRoot(1) && FromItsSquareRoot(2) && FromItsSquareRoot(3);
    hide FromItsSquareRoot;
  }

  lemma SquareRoots4()
    ensures forall i :: 4 <= i < 8 ==> FromItsSquareRoot(i)
  {
    assert FromItsSquareRoot(4) && FromItsSquareRoot(5) && FromItsSquareRoot(6) && FromItsSquareRoot(7);
    hide FromItsSquareRoot;
  }

  /** The initial hash value comes from the square roots of the first eight. */
  lemma InitialAreSquareRoots(i: nat)
    requires i < 8
    ensures IsSquareRoot(INITIAL[i] as int, PRIMES[i])
  {
    hide IsSquareRoot;
    SquareRoots0();
    SquareRoots4();
    assert FromItsSquareRoot(i);
  }

  /** The schedule: sixteen words of the block, and the recurrence of section 6.2.2. */
  lemma {:induction false} ScheduleRecurrence(block: seq<Byte>, n: nat, t: nat)
    requires |block| == BLOCK && t < n
    ensures var w := Schedule(block, n);
            w[t] == if t < 16 then BlockWord(block, t)
                    else Sum(Sum(Sum(w[t - 16], SmallSigma0(w[t - 15])), w[t - 7]), SmallSigma1(w[t - 2]))
  {
    hide BlockWord, Sum, SmallSigma0, SmallSigma1;
    if t < n - 1 { ScheduleRecurrence(block, n - 1, t); }
  }

  /** The first round of the published example, the digest of "abc": it takes in the rotations and
      functions of a round, the first constant and the first word. */
  lemma FirstRoundOfTheExample()
    ensures Loaded(INITIAL)
         == Vars(0x6a09e667, 0xbb67ae85, 0x3c6ef372, 0xa54ff53a, 0x510e527f, 0x9b05688c, 0x1f83d9ab, 0x5be0cd19)
    ensures Round(Vars(0x6a09e667, 0xbb67ae85, 0x3c6ef372, 0xa54ff53a, 0x510e527f, 0x9b05688c, 0x1f83d9ab, 0x5be0cd19),
                  0x428a2f98, 0x61626380)
         == Vars(0x5d6aebcd, 0x6a09e667, 0xbb67ae85, 0x3c6ef372, 0xfa2a4622, 0x510e527f, 0x9b05688c, 0x1f83d9ab)
    ensures Round(Vars(0x5d6aebcd, 0x6a09e667, 0xbb67ae85, 0x3c6ef372, 0xfa2a4622, 0x510e527f, 0x9b05688c, 0x1f83d9ab),
                  0x71374491, 0x00000000)
         == Vars(0x5a6ad9ad, 0x5d6aebcd, 0x6a09e667, 0xbb67ae85, 0x78ce7989, 0xfa2a4622, 0x510e527f, 0x9b05688c)
  {
  }

  /** Its first word, high byte first. */
  lemma FirstWordOfTheExample(block: seq<Byte>)
    requires |block| == BLOCK && block[..4] == [97, 98, 99, 0x80]
    ensures BlockWord(block, 0) == 0x61626380
  {
    assert block[..4][0] == block[0] && block[..4][1] == block[1] && block[..4][2] == block[2] && block[..4][3] == block[3];
  }

  /** And what its schedule makes of the first word and the length. */
  lemma SmallSigmasOfTheExample()
    ensures SmallSigma0(0x61626380) == 0x940e90ef && SmallSigma1(0x61626380) == 0x7da86405
    ensures SmallSigma0(0x00000018) == 0x30060003 && SmallSigma1(0x00000018) == 0x000f0000
  {
  }

  lemma DigitsAreLowerCase(n: Word)
    requires n < 16
    ensures HexCharacter(n) == "0123456789abcdef"[n as int]
  {
  }

  /** Bit by bit `Ch` takes its second argument where the first is set, and its third elsewhere. */
  lemma ChChooses(x: Word, y: Word, z: Word)
    ensures Ch(x, y, z) & x == y & x && Ch(x, y, z) & !x == z & !x
  {
  }

  /** Bit by bit `Maj` is what two of its arguments agree on, whichever two. */
  lemma MajOfAgreement(x: Word, y: Word, z: Word)
    ensures Maj(x, y, z) & !(x ^ y) == x & !(x ^ y)
  {
  }

  lemma MajIsSymmetric(x: Word, y: Word, z: Word)
    ensures Maj(x, y, z) == Maj(y, x, z) == Maj(y, z, x)
  {
  }
}
