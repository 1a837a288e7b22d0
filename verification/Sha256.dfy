/** The chunked hasher: a state array, a buffer for the unfinished block and a byte counter,
    updated in place and tied to `Sha256Spec`. */
module Sha256 {
  import opened Bytes
  import opened Sha256Spec

  const CHUNK: nat := 65536

  /** The message up to its last complete block, and the rest. */
  function Complete(message: seq<Byte>): seq<Byte> { message[..|message| / BLOCK * BLOCK] }

  function Rest(message: seq<Byte>): (r: seq<Byte>)
    ensures |r| == |message| % BLOCK
  {
    message[|message| / BLOCK * BLOCK..]
  }

  lemma NextRound(v: Vars, words: seq<Word>, n: nat)
    requires |words| == 64
    ensures Rounds(v, words, 0) == v
    ensures n < 64 ==> Rounds(v, words, n + 1) == Round(Rounds(v, words, n), RoundConstant(n), words[n])
  {
  }

  lemma AddedInPlace(s: seq<Word>, half: seq<Word>, v: Vars)
    requires |s| == 8
    requires half == s[0 := Sum(s[0], v.a)][1 := Sum(s[1], v.b)][2 := Sum(s[2], v.c)][3 := Sum(s[3], v.d)]
    ensures half[4 := Sum(s[4], v.e)][5 := Sum(s[5], v.f)][6 := Sum(s[6], v.g)][7 := Sum(s[7], v.h)] == Added(s, v)
  {
    hide Sum;
  }

  class Sha256 {
    const state: array<Word>
    const buffer: array<Byte>
    var bufferSize: nat
    var totalBytes: nat

    /** Everything passed to `Update` so far. */
    ghost var message: seq<Byte>

    ghost predicate Shaped()
      reads this
    {
      state.Length == 8 && buffer.Length == BLOCK && bufferSize <= BLOCK
    }

    /** The state is the hash of the complete blocks and the buffer holds what is left. */
    ghost predicate Consistent()
      reads this, state, buffer
    {
      && Shaped() && bufferSize == |message| % BLOCK
      && state[..] == HashBlocks(Complete(message))
      && buffer[..bufferSize] == Rest(message)
    }

    ghost predicate Valid()
      reads this, state, buffer
    {
      Consistent() && totalBytes == |message| % LENGTH_MODULUS
    }

    constructor ()
      ensures Valid() && message == [] && fresh(state) && fresh(buffer)
    {
      state := new Word[8](i requires 0 <= i < 8 => INITIAL[i]);
      buffer := new Byte[BLOCK](_ => 0);
      bufferSize := 0;
      totalBytes := 0;
      message := [];
      new;
      assert state[..] == INITIAL;
    }

    /** The message schedule of a block. */
    method Expand(block: seq<Byte>) returns (words: array<Word>)
      requires |block| == BLOCK
      ensures fresh(words) && words[..] == Schedule(block, 64)
    {
      hide BlockWord, SmallSigma0, SmallSigma1, Sum;
      words := new Word[64];
      for index := 0 to 16
        invariant words[..index] == Schedule(block, index)
      {
        words[index] := BlockWord(block, index);
        assert words[..index + 1] == words[..index] + [words[index]];
      }
      for index := 16 to 64
        invariant words[..index] == Schedule(block, index)
      {
        var s0 := SmallSigma0(words[index - 15]);
        var s1 := SmallSigma1(words[index - 2]);
        ghost var before := words[..index];
        assert before[index - 2] == words[index - 2] && before[index - 7] == words[index - 7];
        assert before[index - 15] == words[index - 15] && before[index - 16] == words[index - 16];
        words[index] := Sum(Sum(Sum(words[index - 16], s0), words[index - 7]), s1);
        assert words[..index + 1] == before + [words[index]];
      }
      assert words[..] == words[..64];
    }

    /** One block into the state. */
    method Transform(block: seq<Byte>)
      requires state.Length == 8 && |block| == BLOCK
      modifies state
      ensures state[..] == Compress(old(state[..]), block)
    {
      hide Schedule, Sum, BigSigma0, BigSigma1, Ch, Maj, RoundConstant, Rounds, Added;
      var words := Expand(block);
      ghost var before := state[..];
      NextRound(Loaded(before), words[..], 0);
      var a, b, c, d, e, f, g, h := state[0], state[1], state[2], state[3], state[4], state[5], state[6], state[7];
      for index := 0 to 64
        invariant state[..] == before && words[..] == Schedule(block, 64)
        invariant Vars(a, b, c, d, e, f, g, h) == Rounds(Loaded(before), words[..], index)
      {
        var temp1 := Sum(Sum(Sum(Sum(h, BigSigma1(e)), Ch(e, f, g)), RoundConstant(index)), words[index]);
        var temp2 := Sum(BigSigma0(a), Maj(a, b, c));
        NextRound(Loaded(before), words[..], index);
        h := g;
        g := f;
        f := e;
        e := Sum(d, temp1);
        d := c;
        c := b;
        b := a;
        a := Sum(temp1, temp2);
      }
      AddVars(a, b, c, d, e, f, g, h);
    }

    method AddVars(a: Word, b: Word, c: Word, d: Word, e: Word, f: Word, g: Word, h: Word)
      requires state.Length == 8
      modifies state
      ensures state[..] == Added(old(state[..]), Vars(a, b, c, d, e, f, g, h))
    {
      hide Sum, Added;
      ghost var s := state[..];
      AddTo(0, a);
      AddTo(1, b);
      AddTo(2, c);
      AddTo(3, d);
      ghost var half := state[..];
      AddTo(4, e);
      AddTo(5, f);
      AddTo(6, g);
      AddTo(7, h);
      AddedInPlace(s, half, Vars(a, b, c, d, e, f, g, h));
    }

    method AddTo(i: nat, x: Word)
      requires state.Length == 8 && i < 8
      modifies state
      ensures state[..] == old(state[..])[i := Sum(old(state[..])[i], x)]
    {
      state[i] := Sum(state[i], x);
    }

    /** Bytes that do not overflow the buffer, behind those it holds. */
    method CopyToBuffer(data: seq<Byte>)
      requires Shaped() && bufferSize + |data| <= BLOCK
      modifies this`bufferSize, buffer
      ensures bufferSize == old(bufferSize) + |data|
      ensures buffer[..bufferSize] == old(buffer[..bufferSize]) + data
    {
      for i := 0 to |data|
        modifies buffer
        invariant buffer[..bufferSize + i] == old(buffer[..bufferSize]) + data[..i]
      {
        buffer[bufferSize + i] := data[i];
        assert data[..i + 1] == data[..i] + [data[i]];
        assert buffer[..bufferSize + i + 1] == buffer[..bufferSize + i] + [data[i]];
      }
      assert data[..|data|] == data;
      bufferSize := bufferSize + |data|;
    }

    /** Bytes that do not complete the block stay in the buffer. */
    method Append(data: seq<Byte>)
      requires Consistent() && bufferSize + |data| < BLOCK
      modifies this`bufferSize, this`message, buffer
      ensures Consistent() && message == old(message) + data
    {
      hide HashBlocks;
      AppendWithin(message, data);
      CopyToBuffer(data);
      message := message + data;
    }

    /** Bytes that complete the block go through the transform with what was buffered. */
    method Complement(data: seq<Byte>)
      requires Consistent() && bufferSize + |data| == BLOCK
      modifies this`bufferSize, this`message, buffer, state
      ensures Consistent() && message == old(message) + data && bufferSize == 0
    {
      hide HashBlocks, Compress;
      AppendFull(message, data);
      HashMore(Complete(message), Rest(message) + data);
      CopyToBuffer(data);
      Transform(buffer[..]);
      assert buffer[..] == buffer[..BLOCK];
      bufferSize := 0;
      message := message + data;
    }

    /** A whole block straight from the input. */
    method TakeBlock(block: seq<Byte>)
      requires Consistent() && bufferSize == 0 && |block| == BLOCK
      modifies this`message, state
      ensures Consistent() && message == old(message) + block
    {
      hide HashBlocks, Compress;
      AppendFull(message, block);
      HashMore(Complete(message), Rest(message) + block);
      assert Rest(message) + block == block;
      Transform(block);
      message := message + block;
    }

    /** Buffered bytes first, then whole blocks straight from the input, then the rest. */
    method Update(data: seq<Byte>)
      requires Valid()
      modifies this, state, buffer
      ensures Valid() && message == old(message) + data
    {
      hide HashBlocks, Complete, Rest;
      ghost var before := message;
      totalBytes := (totalBytes + |data|) % LENGTH_MODULUS;
      var offset := 0;
      if bufferSize != 0 {
        var required := BLOCK - bufferSize;
        var copied := if required <= |data| then required else |data|;
        if copied == required {
          Complement(data[..copied]);
        } else {
          Append(data[..copied]);
        }
        offset := copied;
      }
      assert before + data[..0] == before;
      while offset + BLOCK <= |data|
        invariant offset <= |data| && Consistent() && (bufferSize > 0 ==> offset == |data|)
        invariant message == before + data[..offset]
        invariant totalBytes == (old(totalBytes) + |data|) % LENGTH_MODULUS
        decreases |data| - offset
      {
        assert before + data[..offset] + data[offset..offset + BLOCK] == before + data[..offset + BLOCK];
        TakeBlock(data[offset..offset + BLOCK]);
        offset := offset + BLOCK;
      }
      if offset < |data| {
        assert before + data[..offset] + data[offset..] == before + data;
        Append(data[offset..]);
      } else {
        assert data[..offset] == data;
      }
      TotalAfter(|before|, |data|);
    }

    method ZeroFill(end: nat)
      requires buffer.Length == BLOCK && bufferSize <= end <= BLOCK
      modifies buffer
      ensures buffer[..end] == old(buffer[..bufferSize]) + Zeros(end - bufferSize)
    {
      for i := bufferSize to end
        invariant buffer[..bufferSize] == old(buffer[..bufferSize])
        invariant forall j :: bufferSize <= j < i ==> buffer[j] == 0
      {
        buffer[i] := 0;
      }
    }

    /** The length field, lowest byte last. */
    method WriteLength(bitLength: nat)
      requires buffer.Length == BLOCK
      modifies buffer
      ensures buffer[..] == old(buffer[..56]) + BigEndian(bitLength, 8)
    {
      for index := 0 to 8
        invariant buffer[..56] == old(buffer[..56])
        invariant forall j :: 0 <= j < index ==> buffer[63 - j] == ByteOf(bitLength, j)
      {
        buffer[63 - index] := ByteOf(bitLength, index);
      }
      forall i | 0 <= i < 8
        ensures buffer[56 + i] == BigEndian(bitLength, 8)[i]
      {
        BigEndianAt(bitLength, 8, i);
        assert buffer[63 - (7 - i)] == ByteOf(bitLength, 7 - i);
      }
    }

    /** The zeros and the length behind what is buffered, and the last block. */
    method LastBlock(bitLength: nat)
      requires Shaped() && bufferSize <= 56
      modifies state, buffer
      ensures state[..] == Compress(old(state[..]), old(buffer[..bufferSize]) + Zeros(56 - bufferSize) + BigEndian(bitLength, 8))
    {
      hide Compress;
      ZeroFill(56);
      WriteLength(bitLength);
      Transform(buffer[..]);
    }

    /** Zeros to the end of the block, when the length does not fit any more. */
    method SpillBlock()
      requires Shaped()
      modifies this`bufferSize, state, buffer
      ensures bufferSize == 0
      ensures state[..] == Compress(old(state[..]), old(buffer[..bufferSize] + Zeros(BLOCK - bufferSize)))
    {
      hide Compress;
      ZeroFill(BLOCK);
      assert buffer[..] == buffer[..BLOCK];
      Transform(buffer[..]);
      bufferSize := 0;
    }

    /** Pads the message in the buffer, in one block or in two. */
    method PadAndHash()
      requires Valid()
      modifies this`bufferSize, state, buffer
      ensures state[..] == Digest(message)
    {
      hide HashBlocks, Compress, Zeros, BigEndian, Digest, Complete;
      var bitLength := (totalBytes * 8) % LENGTH_MODULUS;
      BitLength(|message|);
      CopyToBuffer([0x80]);
      if bufferSize > 56 {
        SpillBlock();
        LastBlock(bitLength);
        assert buffer[..0] + Zeros(56) == Zeros(56);
        DigestInTwo(message);
      } else {
        LastBlock(bitLength);
        DigestInOne(message);
      }
    }

    /** The digest of everything passed to `Update`, in hexadecimal. */
    method Finish() returns (digest: string)
      requires Valid()
      modifies this`bufferSize, state, buffer
      ensures digest == Hex(Digest(message)) && |digest| == 64
    {
      hide Digest, HexWord;
      PadAndHash();
      digest := "";
      for index := 0 to 8
        invariant digest == Hex(state[..index])
      {
        assert state[..index + 1][..index] == state[..index];
        digest := digest + HexWord(state[index]);
      }
      assert state[..8] == state[..];
    }
  }

  /** A file: the bytes that can be read, and whether reading then ends or breaks off. */
  datatype File = CannotOpen | File(bytes: seq<Byte>, breaks: bool)

  datatype HashResult = Hashed(digest: string) | OpenFailed | ReadFailed

  /** The file in chunks of 64 KiB, the last one shorter. */
  method Sha256File(file: File) returns (result: HashResult)
    ensures result == match file
                      case CannotOpen => OpenFailed
                      case File(bytes, breaks) => if breaks then ReadFailed else Hashed(Hex(Digest(bytes)))
  {
    hide Digest, Hex, Sha256.Valid;
    if file.CannotOpen? {
      return OpenFailed;
    }
    var hash := new Sha256();
    var position, good, atEnd := 0, true, false;
    while good
      invariant position <= |file.bytes| && hash.Valid() && fresh(hash) && fresh(hash.state) && fresh(hash.buffer)
      invariant hash.message == file.bytes[..position]
      invariant !good ==> position == |file.bytes| && atEnd == !file.breaks
      decreases |file.bytes| - position, good
    {
      var left := |file.bytes| - position;
      var count := if left < CHUNK then left else CHUNK;
      if count < CHUNK {
        good := false;
        atEnd := !file.breaks;
      }
      if count > 0 {
        hash.Update(file.bytes[position..position + count]);
        assert file.bytes[..position] + file.bytes[position..position + count] == file.bytes[..position + count];
      }
      position := position + count;
    }
    assert file.bytes[..position] == file.bytes;
    if !atEnd {
      return ReadFailed;
    }
    var digest := hash.Finish();
    return Hashed(digest);
  }

  lemma BitLength(length: nat)
    ensures (length % LENGTH_MODULUS * 8) % LENGTH_MODULUS == (8 * length) % LENGTH_MODULUS
  {
    var n, r := length / LENGTH_MODULUS, length % LENGTH_MODULUS;
    assert 8 * length == 8 * r + (8 * n) * LENGTH_MODULUS;
  }

  lemma CompleteIsWhole(m: seq<Byte>)
    ensures |Complete(m)| % BLOCK == 0 && m == Complete(m) + Rest(m)
  {
  }

  function LengthField(length: nat): (r: seq<Byte>)
    ensures |r| == 8
  {
    BigEndian((8 * length) % LENGTH_MODULUS, 8)
  }

  /** One more block when the length still fits behind the rest of the message. */
  lemma DigestInOne(m: seq<Byte>)
    requires |m| % BLOCK < 56
    ensures Digest(m) == Compress(HashBlocks(Complete(m)),
                                  Rest(m) + [0x80] + Zeros(56 - (|m| % BLOCK + 1)) + LengthField(|m|))
  {
    var last := Rest(m) + [0x80] + Zeros(56 - (|m| % BLOCK + 1)) + LengthField(|m|);
    CompleteIsWhole(m);
    assert m + Padding(|m|) == Complete(m) + last;
    hide HashBlocks, Compress, Zeros, LengthField, Padding, Complete;
    HashMore(Complete(m), last);
  }

  /** Two more blocks otherwise. */
  lemma DigestInTwo(m: seq<Byte>)
    requires |m| % BLOCK >= 56
    ensures Digest(m) == Compress(Compress(HashBlocks(Complete(m)),
                                           Rest(m) + [0x80] + Zeros(BLOCK - (|m| % BLOCK + 1))),
                                  Zeros(56) + LengthField(|m|))
  {
    var first, last := Rest(m) + [0x80] + Zeros(BLOCK - (|m| % BLOCK + 1)), Zeros(56) + LengthField(|m|);
    CompleteIsWhole(m);
    PaddedInTwo(m, first, last);
    assert |first| == BLOCK && |last| == BLOCK;
    hide HashBlocks, Compress, Zeros, LengthField, Padding, Complete, Rest;
    HashMoreAgain(Complete(m), first, last);
  }

  lemma HashMoreAgain(whole: seq<Byte>, first: seq<Byte>, last: seq<Byte>)
    requires |whole| % BLOCK == 0 && |first| == BLOCK && |last| == BLOCK
    ensures HashBlocks(whole + first + last) == Compress(Compress(HashBlocks(whole), first), last)
  {
    hide HashBlocks, Compress;
    HashMore(whole, first);
    HashMore(whole + first, last);
  }

  lemma PaddedInTwo(m: seq<Byte>, first: seq<Byte>, last: seq<Byte>)
    requires |m| % BLOCK >= 56
    requires first == Rest(m) + [0x80] + Zeros(BLOCK - (|m| % BLOCK + 1)) && last == Zeros(56) + LengthField(|m|)
    ensures m + Padding(|m|) == Complete(m) + first + last
  {
    var a, b := BLOCK - (|m| % BLOCK + 1), Zeros(56);
    CompleteIsWhole(m);
    ZerosJoin(a, 56);
    assert Padding(|m|) == [0x80] + (Zeros(a) + b) + LengthField(|m|);
    hide Padding, Zeros, LengthField, Complete, Rest;
    assert m + ([0x80] + (Zeros(a) + b) + LengthField(|m|))
        == Complete(m) + (Rest(m) + [0x80] + Zeros(a)) + (b + LengthField(|m|));
  }

  lemma ZerosJoin(a: nat, b: nat)
    ensures Zeros(a + b) == Zeros(a) + Zeros(b)
  {
  }

  lemma TotalAfter(length: nat, more: nat)
    ensures (length % LENGTH_MODULUS + more) % LENGTH_MODULUS == (length + more) % LENGTH_MODULUS
  {
    var n, r := length / LENGTH_MODULUS, length % LENGTH_MODULUS;
    assert length + more == (r + more) + n * LENGTH_MODULUS;
  }

  lemma AppendWithin(m: seq<Byte>, x: seq<Byte>)
    requires |m| % BLOCK + |x| < BLOCK
    ensures |m + x| % BLOCK == |m| % BLOCK + |x|
    ensures Complete(m + x) == Complete(m) && Rest(m + x) == Rest(m) + x
  {
    var n := |m| / BLOCK * BLOCK;
    SameBlock(|m|, |x|);
    assert (m + x)[..n] == m[..n] && (m + x)[n..] == m[n..] + x;
  }

  lemma SameBlock(length: nat, more: nat)
    requires length % BLOCK + more < BLOCK
    ensures (length + more) / BLOCK * BLOCK == length / BLOCK * BLOCK && length / BLOCK * BLOCK <= length
    ensures (length + more) % BLOCK == length % BLOCK + more
  {
  }

  /** A block that becomes full. */
  lemma AppendFull(m: seq<Byte>, x: seq<Byte>)
    requires |m| % BLOCK + |x| == BLOCK
    ensures |m + x| % BLOCK == 0 && |Complete(m)| % BLOCK == 0
    ensures Complete(m + x) == Complete(m) + (Rest(m) + x) && Rest(m + x) == []
  {
    NextBlock(|m|, |x|);
    var n := |m| / BLOCK * BLOCK;
    assert (m + x)[..|m + x|] == m[..n] + (m[n..] + x);
  }

  lemma NextBlock(length: nat, more: nat)
    requires length % BLOCK + more == BLOCK
    ensures (length + more) / BLOCK * BLOCK == length + more && length / BLOCK * BLOCK <= length
    ensures (length + more) % BLOCK == 0 && (length / BLOCK * BLOCK) % BLOCK == 0
  {
  }
}
