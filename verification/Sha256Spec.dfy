/** SHA-256 as FIPS 180-4 defines it: padding (section 5.1.1), schedule, rounds and
    intermediate hash values (section 6.2.2). */
module Sha256Spec {
  import opened Bytes

  type Word = bv32

  const BLOCK: nat := 64

  const LENGTH_MODULUS: nat := 0x1_0000_0000_0000_0000

  const ROUND_CONSTANTS: seq<Word> :=
    [0x428a2f98, 0x71374491, 0xb5c0fbcf, 0xe9b5dba5, 0x3956c25b, 0x59f111f1, 0x923f82a4, 0xab1c5ed5] +
    [0xd807aa98, 0x12835b01, 0x243185be, 0x550c7dc3, 0x72be5d74, 0x80deb1fe, 0x9bdc06a7, 0xc19bf174] +
    [0xe49b69c1, 0xefbe4786, 0x0fc19dc6, 0x240ca1cc, 0x2de92c6f, 0x4a7484aa, 0x5cb0a9dc, 0x76f988da] +
    [0x983e5152, 0xa831c66d, 0xb00327c8, 0xbf597fc7, 0xc6e00bf3, 0xd5a79147, 0x06ca6351, 0x14292967] +
    [0x27b70a85, 0x2e1b2138, 0x4d2c6dfc, 0x53380d13, 0x650a7354, 0x766a0abb, 0x81c2c92e, 0x92722c85] +
    [0xa2bfe8a1, 0xa81a664b, 0xc24b8b70, 0xc76c51a3, 0xd192e819, 0xd6990624, 0xf40e3585, 0x106aa070] +
    [0x19a4c116, 0x1e376c08, 0x2748774c, 0x34b0bcb5, 0x391c0cb3, 0x4ed8aa4a, 0x5b9cca4f, 0x682e6ff3] +
    [0x748f82ee, 0x78a5636f, 0x84c87814, 0x8cc70208, 0x90befffa, 0xa4506ceb, 0xbef9a3f7, 0xc67178f2]

  const INITIAL: seq<Word> := [
    0x6a09e667, 0xbb67ae85, 0x3c6ef372, 0xa54ff53a, 0x510e527f, 0x9b05688c, 0x1f83d9ab, 0x5be0cd19]

  // ---- functions of section 4.1.2 --------------------------------------------------

  /** Addition modulo 2^32. */
  function Sum(x: Word, y: Word): Word { x + y }

  function SmallSigma0(x: Word): Word { x.RotateRight(7) ^ x.RotateRight(18) ^ (x >> 3) }

  function SmallSigma1(x: Word): Word { x.RotateRight(17) ^ x.RotateRight(19) ^ (x >> 10) }

  function BigSigma0(x: Word): Word { x.RotateRight(2) ^ x.RotateRight(13) ^ x.RotateRight(22) }

  function BigSigma1(x: Word): Word { x.RotateRight(6) ^ x.RotateRight(11) ^ x.RotateRight(25) }

  function Ch(x: Word, y: Word, z: Word): Word { (x & y) ^ ((!x) & z) }

  function Maj(x: Word, y: Word, z: Word): Word { (x & y) ^ (x & z) ^ (y & z) }

  function RoundConstant(n: nat): Word
    requires n < 64
  {
    ROUND_CONSTANTS[n]
  }

  // ---- one block -------------------------------------------------------------------

  /** Word `t` of a block, big-endian. */
  function BlockWord(block: seq<Byte>, t: nat): Word
    requires |block| == BLOCK && t < 16
  {
    ((block[4 * t] as bv32) << 24) | ((block[4 * t + 1] as bv32) << 16) | ((block[4 * t + 2] as bv32) << 8)
    | (block[4 * t + 3] as bv32)
  }

  /** The first `n` words of the message schedule. */
  function Schedule(block: seq<Byte>, n: nat): (w: seq<Word>)
    requires |block| == BLOCK
    ensures |w| == n
  {
    if n == 0 then []
    else
      var w := Schedule(block, n - 1);
      var t := n - 1;
      w + [if t < 16 then BlockWord(block, t)
           else Sum(Sum(Sum(w[t - 16], SmallSigma0(w[t - 15])), w[t - 7]), SmallSigma1(w[t - 2]))]
  }

  /** The working variables. */
  datatype Vars = Vars(a: Word, b: Word, c: Word, d: Word, e: Word, f: Word, g: Word, h: Word)

  function Round(v: Vars, k: Word, w: Word): Vars {
    var t1 := Sum(Sum(Sum(Sum(v.h, BigSigma1(v.e)), Ch(v.e, v.f, v.g)), k), w);
    var t2 := Sum(BigSigma0(v.a), Maj(v.a, v.b, v.c));
    Vars(Sum(t1, t2), v.a, v.b, v.c, Sum(v.d, t1), v.e, v.f, v.g)
  }

  function Rounds(v: Vars, words: seq<Word>, n: nat): Vars
    requires n <= |words| == 64
  {
    if n == 0 then v else Round(Rounds(v, words, n - 1), RoundConstant(n - 1), words[n - 1])
  }

  function Loaded(state: seq<Word>): Vars
    requires |state| == 8
  {
    Vars(state[0], state[1], state[2], state[3], state[4], state[5], state[6], state[7])
  }

  function Added(state: seq<Word>, v: Vars): (r: seq<Word>)
    requires |state| == 8
    ensures |r| == 8
  {
    [Sum(state[0], v.a), Sum(state[1], v.b), Sum(state[2], v.c), Sum(state[3], v.d),
     Sum(state[4], v.e), Sum(state[5], v.f), Sum(state[6], v.g), Sum(state[7], v.h)]
  }

  /** The next intermediate hash value. */
  function Compress(state: seq<Word>, block: seq<Byte>): (r: seq<Word>)
    requires |state| == 8 && |block| == BLOCK
    ensures |r| == 8
  {
    Added(state, Rounds(Loaded(state), Schedule(block, 64), 64))
  }

  // ---- a message -------------------------------------------------------------------

  /** The intermediate hash value after all complete blocks of `bytes`. */
  function HashBlocks(bytes: seq<Byte>): (r: seq<Word>)
    ensures |r| == 8
  {
    var n := |bytes| / BLOCK;
    if n == 0 then INITIAL
    else Compress(HashBlocks(bytes[..(n - 1) * BLOCK]), bytes[(n - 1) * BLOCK..n * BLOCK])
  }

  function Zeros(n: nat): (r: seq<Byte>)
    ensures |r| == n
  {
    seq(n, _ => 0)
  }

  /** How many zero bytes follow the one bit. */
  function Fill(length: nat): nat { if length % BLOCK < 56 then 55 - length % BLOCK else 119 - length % BLOCK }

  /** Section 5.1.1: the least number of zeros that leaves room for the length. */
  lemma FillIsLeast(length: nat, k: nat)
    ensures (length + 1 + Fill(length)) % BLOCK == 56
    ensures (length + 1 + k) % BLOCK == 56 ==> Fill(length) <= k
  {
  }

  function Padding(length: nat): seq<Byte> { [0x80] + Zeros(Fill(length)) + BigEndian((8 * length) % LENGTH_MODULUS, 8) }

  function Digest(message: seq<Byte>): (r: seq<Word>)
    ensures |r| == 8
  {
    HashBlocks(message + Padding(|message|))
  }

  /** Within the lengths the standard allows, the length field is the length in bits. */
  lemma LengthFieldIsExact(message: seq<Byte>)
    requires |message| < 0x2000_0000_0000_0000
    ensures Padding(|message|) == [0x80] + Zeros(Fill(|message|)) + BigEndian(8 * |message|, 8)
    ensures Value(BigEndian(8 * |message|, 8)) == 8 * |message|
  {
    assert Power256(8) == LENGTH_MODULUS by {
      assert Power256(2) == 0x1_0000;
      assert Power256(4) == 0x1_0000_0000;
      assert Power256(6) == 0x1_0000_0000_0000;
    }
    BigEndianValue(8 * |message|, 8);
  }

  lemma LastBlock(bytes: seq<Byte>, m: nat)
    requires m % BLOCK == 0 && |bytes| == m + BLOCK
    ensures HashBlocks(bytes) == Compress(HashBlocks(bytes[..m]), bytes[m..])
  {
    hide Compress;
    assert bytes[m..m + BLOCK] == bytes[m..];
  }

  /** One more complete block. */
  lemma HashMore(bytes: seq<Byte>, block: seq<Byte>)
    requires |bytes| % BLOCK == 0 && |block| == BLOCK
    ensures HashBlocks(bytes + block) == Compress(HashBlocks(bytes), block)
  {
    hide HashBlocks, Compress;
    LastBlock(bytes + block, |bytes|);
    assert (bytes + block)[..|bytes|] == bytes && (bytes + block)[|bytes|..] == block;
  }

  // ---- printing --------------------------------------------------------------------

  function HexCharacter(n: Word): char {
    if n < 10 then
      (if n < 5 then (if n == 0 then '0' else if n == 1 then '1' else if n == 2 then '2' else if n == 3 then '3' else '4')
       else (if n == 5 then '5' else if n == 6 then '6' else if n == 7 then '7' else if n == 8 then '8' else '9'))
    else if n == 10 then 'a' else if n == 11 then 'b' else if n == 12 then 'c'
    else if n == 13 then 'd' else if n == 14 then 'e' else 'f'
  }

  function Nibble(w: Word, shift: nat): Word
    requires shift < 32
  {
    (w >> shift) & 15
  }

  /** Eight lower-case hexadecimal digits, highest first. */
  function HexWord(w: Word): (r: string)
    ensures |r| == 8
  {
    [HexCharacter(Nibble(w, 28)), HexCharacter(Nibble(w, 24)), HexCharacter(Nibble(w, 20)), HexCharacter(Nibble(w, 16)),
     HexCharacter(Nibble(w, 12)), HexCharacter(Nibble(w, 8)), HexCharacter(Nibble(w, 4)), HexCharacter(Nibble(w, 0))]
  }

  function Hex(words: seq<Word>): (r: string)
    ensures |r| == 8 * |words|
  {
    if words == [] then "" else Hex(words[..|words| - 1]) + HexWord(words[|words| - 1])
  }

  lemma HexCharacterIsInjective(v: Word, w: Word, shift: nat)
    requires shift < 32 && HexCharacter(Nibble(v, shift)) == HexCharacter(Nibble(w, shift))
    ensures Nibble(v, shift) == Nibble(w, shift)
  {
    DigitIsInjective(Nibble(v, shift), Nibble(w, shift));
    NibbleIsSmall(v >> shift);
    NibbleIsSmall(w >> shift);
    hide HexCharacter;
  }

  lemma DigitIsInjective(n: Word, m: Word)
    ensures n < 16 && m < 16 && HexCharacter(n) == HexCharacter(m) ==> n == m
  {
  }

  lemma NibbleIsSmall(w: Word)
    ensures w & 15 < 16
  {
  }

  lemma NibblesDetermine(v: Word, w: Word)
    requires Nibble(v, 28) == Nibble(w, 28) && Nibble(v, 24) == Nibble(w, 24)
    requires Nibble(v, 20) == Nibble(w, 20) && Nibble(v, 16) == Nibble(w, 16)
    requires Nibble(v, 12) == Nibble(w, 12) && Nibble(v, 8) == Nibble(w, 8)
    requires Nibble(v, 4) == Nibble(w, 4) && Nibble(v, 0) == Nibble(w, 0)
    ensures v == w
  {
  }

  /** Different words print differently. */
  lemma HexWordIsInjective(v: Word, w: Word)
    requires HexWord(v) == HexWord(w)
    ensures v == w
  {
    hide HexCharacter, Nibble;
    assert forall i :: 0 <= i < 8 ==> HexWord(v)[i] == HexWord(w)[i];
    HexCharacterIsInjective(v, w, 28);
    HexCharacterIsInjective(v, w, 24);
    HexCharacterIsInjective(v, w, 20);
    HexCharacterIsInjective(v, w, 16);
    HexCharacterIsInjective(v, w, 12);
    HexCharacterIsInjective(v, w, 8);
    HexCharacterIsInjective(v, w, 4);
    HexCharacterIsInjective(v, w, 0);
    NibblesDetermine(v, w);
  }

  /** So the printed digest determines the digest. */
  lemma {:induction false} HexIsInjective(a: seq<Word>, b: seq<Word>)
    requires Hex(a) == Hex(b)
    ensures a == b
  {
    hide HexWord;
    if a != [] {
      var n := |a| - 1;
      assert |b| == |a|;
      assert Hex(a)[..8 * n] == Hex(a[..n]) && Hex(b)[..8 * n] == Hex(b[..n]);
      assert Hex(a)[8 * n..] == HexWord(a[n]) && Hex(b)[8 * n..] == HexWord(b[n]);
      HexIsInjective(a[..n], b[..n]);
      HexWordIsInjective(a[n], b[n]);
      assert a == a[..n] + [a[n]] && b == b[..n] + [b[n]];
    } else {
      assert |Hex(b)| == 0;
    }
  }
}
