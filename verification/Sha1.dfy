/** SHA-1 over a message that arrives in pieces. */
module Sha1 {
  import opened Bytes
  import opened Padding
  import opened Sequences
  import opened Sha1Compression
  import opened Streams

  const BLOCK_BYTES: nat := 64

  const INITIAL: Digest := [0x67452301, 0xefcdab89, 0x98badcfe, 0x10325476, 0xc3d2e1f0]

  function ToWord(n: nat): Word
    requires n < TWO_TO_32
  {
    n as Word
  }

  /** The word that four bytes make, most significant first. */
  function WordAt(bytes: seq<Byte>, i: nat): Word
    requires i + 4 <= |bytes|
  {
    ToWord(Quad(bytes[i], bytes[i + 1], bytes[i + 2], bytes[i + 3]))
  }

  function WordsOf(bytes: seq<Byte>): (block: Block)
    requires |bytes| == BLOCK_BYTES
  {
    seq(16, i requires 0 <= i < 16 => WordAt(bytes, 4 * i))
  }

  /** The compression function on blocks of bytes. */
  function Step(h: Digest, bytes: seq<Byte>): Digest {
    if |bytes| == BLOCK_BYTES then Compress(h, WordsOf(bytes)) else h
  }

  /** The digest of FIPS 180-4. */
  function Digested(message: seq<Byte>): Digest {
    Fold(Step, INITIAL, Padded(message, BLOCK_BYTES, 8), BLOCK_BYTES)
  }

  /** Words 14 and 15 of a block are its last eight bytes. */
  lemma LengthWords(bytes: seq<Byte>, n: nat)
    requires |bytes| == BLOCK_BYTES
    ensures WordsOf(bytes[..56] + BigEndian(n, 8)) ==
      WordsOf(bytes)[14 := ToWord(n / TWO_TO_32 % TWO_TO_32)][15 := ToWord(n % TWO_TO_32)]
  {
    hide ToWord;
    var changed := bytes[..56] + BigEndian(n, 8);
    BigEndianSplit(n, 4);
    BigEndianQuad(n);
    BigEndianQuad(n / TWO_TO_32);
    var high, low := BigEndian(n / TWO_TO_32, 4), BigEndian(n, 4);
    hide BigEndian, Quad;
    forall i | 0 <= i < 14 ensures WordAt(changed, 4 * i) == WordAt(bytes, 4 * i) {
      assert forall k :: 0 <= k < 56 ==> changed[k] == bytes[k];
    }
    assert changed[56] == high[0] && changed[57] == high[1] && changed[58] == high[2] && changed[59] == high[3];
    assert changed[60] == low[0] && changed[61] == low[1] && changed[62] == low[2] && changed[63] == low[3];
    assert WordAt(changed, 56) == ToWord(n / TWO_TO_32 % TWO_TO_32);
    assert WordAt(changed, 60) == ToWord(n % TWO_TO_32);
  }

  /** One more block of a message. */
  lemma NextBlock(all: seq<Byte>, blocks: nat, block: seq<Byte>)
    requires |block| == BLOCK_BYTES && (blocks + 1) * BLOCK_BYTES <= |all|
    requires block == all[blocks * BLOCK_BYTES..(blocks + 1) * BLOCK_BYTES]
    ensures Fold(Step, INITIAL, all[..(blocks + 1) * BLOCK_BYTES], BLOCK_BYTES) ==
      Compress(Fold(Step, INITIAL, all[..blocks * BLOCK_BYTES], BLOCK_BYTES), WordsOf(block))
  {
    FoldBlock(Step, INITIAL, blocks, all[..blocks * BLOCK_BYTES], block, BLOCK_BYTES);
    assert all[..blocks * BLOCK_BYTES] + block == all[..(blocks + 1) * BLOCK_BYTES];
    hide Compress, WordsOf, Fold;
  }

  /** The length in bits, as the program counts it. */
  lemma BitCount(blocks: nat, rest: nat)
    ensures (blocks % TWO_TO_64 * BLOCK_BYTES + rest) * 8 % TWO_TO_64 == 8 * (blocks * BLOCK_BYTES + rest) % TWO_TO_64
  {
    var q := blocks / TWO_TO_64;
    assert 8 * (blocks * BLOCK_BYTES + rest) == (blocks % TWO_TO_64 * BLOCK_BYTES + rest) * 8 + 512 * q * TWO_TO_64;
  }

  lemma SplitCount(n: nat)
    ensures n % TWO_TO_64 / TWO_TO_32 == n / TWO_TO_32 % TWO_TO_32
    ensures n % TWO_TO_64 % TWO_TO_32 == n % TWO_TO_32
  {
  }

  /** What follows the whole blocks of a message when it is padded. */
  function Tail(rest: seq<Byte>, n: nat): (tail: seq<Byte>)
    requires |rest| < BLOCK_BYTES
    ensures |tail| == if |rest| < 56 then BLOCK_BYTES else 2 * BLOCK_BYTES
  {
    rest + [0x80] + Zeros(if |rest| < 56 then 55 - |rest| else 119 - |rest|) + BigEndian(8 * n, 8)
  }

  lemma PaddingIsTail(message: seq<Byte>, blocks: nat)
    requires blocks * BLOCK_BYTES <= |message| < (blocks + 1) * BLOCK_BYTES
    ensures Padded(message, BLOCK_BYTES, 8) ==
      message[..blocks * BLOCK_BYTES] + Tail(message[blocks * BLOCK_BYTES..], |message|)
  {
    var start, rest := message[..blocks * BLOCK_BYTES], message[blocks * BLOCK_BYTES..];
    ZerosOfTail(blocks, |rest|);
    assert message == start + rest;
    assert Padded(message, BLOCK_BYTES, 8) == message + Suffix(|message|, BLOCK_BYTES, 8);
    hide BigEndian, ZeroCount;
    assert Tail(rest, |message|) == rest + Suffix(|message|, BLOCK_BYTES, 8);
  }

  lemma ZerosOfTail(blocks: nat, rest: nat)
    requires rest < BLOCK_BYTES
    ensures ZeroCount(blocks * BLOCK_BYTES + rest, BLOCK_BYTES, 8) == if rest < 56 then 55 - rest else 119 - rest
  {
    assert (blocks * 64 + rest + 1 + 8) % 64 == (rest + 9) % 64;
  }

  /** The digest of the whole message, from that of its whole blocks and its tail. */
  lemma TailDigested(message: seq<Byte>, blocks: nat)
    requires blocks * BLOCK_BYTES <= |message| < (blocks + 1) * BLOCK_BYTES
    ensures var h := Fold(Step, INITIAL, message[..blocks * BLOCK_BYTES], BLOCK_BYTES);
      var tail := Tail(message[blocks * BLOCK_BYTES..], |message|);
      Digested(message) ==
      if |tail| == BLOCK_BYTES then Compress(h, WordsOf(tail))
      else Compress(Compress(h, WordsOf(tail[..BLOCK_BYTES])), WordsOf(tail[BLOCK_BYTES..]))
  {
    var h := Fold(Step, INITIAL, message[..blocks * BLOCK_BYTES], BLOCK_BYTES);
    var tail := Tail(message[blocks * BLOCK_BYTES..], |message|);
    PaddingIsTail(message, blocks);
    FoldOfSum(Step, INITIAL, blocks, message[..blocks * BLOCK_BYTES], tail, BLOCK_BYTES);
    hide Compress, WordsOf, Tail;
    if |tail| == BLOCK_BYTES {
      assert tail[..BLOCK_BYTES] == tail && tail[BLOCK_BYTES..] == [];
    } else {
      var last := tail[BLOCK_BYTES..];
      assert last[..BLOCK_BYTES] == last && last[BLOCK_BYTES..] == [];
      assert Fold(Step, h, tail, BLOCK_BYTES) == Fold(Step, Step(h, tail[..BLOCK_BYTES]), last, BLOCK_BYTES);
    }
  }

  /** A buffer of `rest`, the one bit and zeros, is a block of the tail but for the length. */
  lemma TailBlocks(rest: seq<Byte>, filled: seq<Byte>, n: nat)
    requires |rest| < BLOCK_BYTES && filled == rest + [0x80] + Zeros(BLOCK_BYTES - 1 - |rest|)
    ensures |rest| < 56 ==> Tail(rest, n) == filled[..56] + BigEndian(8 * n, 8)
    ensures |rest| >= 56 ==> Tail(rest, n)[..BLOCK_BYTES] == filled
    ensures |rest| >= 56 ==> Tail(rest, n)[BLOCK_BYTES..] == Zeros(BLOCK_BYTES)[..56] + BigEndian(8 * n, 8)
  {
    hide BigEndian;
  }

  lemma TwoParts(s: seq<Byte>, i: nat, j: nat, k: nat)
    requires i <= j <= k <= |s|
    ensures s[i..j] + s[j..k] == s[i..k]
  {
  }

  class Sha1 {
    const digest: array<Word>
    var buffer: seq<Byte>
    var transforms: nat

    /** What has been hashed so far; `blocks` counts the blocks of it that have been transformed. */
    ghost var message: seq<Byte>
    ghost var blocks: nat

    /** The digest is that of the whole blocks of what has been taken of `all`, and the buffer is the
        rest of what has been taken. */
    ghost predicate Taken(all: seq<Byte>)
      reads this, digest
    {
      && digest.Length == 5
      && blocks * BLOCK_BYTES + |buffer| <= |all|
      && buffer == all[blocks * BLOCK_BYTES..blocks * BLOCK_BYTES + |buffer|]
      && digest[..] == Fold(Step, INITIAL, all[..blocks * BLOCK_BYTES], BLOCK_BYTES)
      && transforms == blocks % TWO_TO_64
    }

    ghost predicate Valid()
      reads this, digest
    {
      Taken(message) && blocks * BLOCK_BYTES + |buffer| == |message| && |buffer| < BLOCK_BYTES
    }

    constructor ()
      ensures Valid() && message == [] && fresh(digest)
    {
      digest := new Word[5];
      buffer, transforms := [], 0;
      new;
      Reset();
    }

    method Reset()
      requires digest.Length == 5
      modifies this, digest
      ensures Valid() && message == []
    {
      digest[0], digest[1], digest[2], digest[3], digest[4] :=
        INITIAL[0], INITIAL[1], INITIAL[2], INITIAL[3], INITIAL[4];
      transforms := 0;
      buffer := [];
      message, blocks := [], 0;
      assert digest[..] == INITIAL;
    }

    static method BufferToBlock(buffer: seq<Byte>) returns (block: array<Word>)
      requires |buffer| == BLOCK_BYTES
      ensures fresh(block) && block.Length == 16 && block[..] == WordsOf(buffer)
    {
      block := new Word[16];
      for i := 0 to 16
        invariant forall k :: 0 <= k < i ==> block[k] == WordAt(buffer, 4 * k)
      {
        block[i] := WordAt(buffer, 4 * i);
      }
    }

    /** Transforms a full buffer, which stands for the next block of `all`. */
    method TransformBuffer(ghost all: seq<Byte>)
      requires Taken(all) && |buffer| == BLOCK_BYTES
      modifies this`buffer, this`transforms, this`blocks, digest
      ensures Taken(all) && blocks == old(blocks) + 1 && buffer == []
    {
      hide Compress, WordsOf, Fold, Step;
      var block := BufferToBlock(buffer);
      NextBlock(all, blocks, buffer);
      Transform(digest, block);
      transforms := (transforms + 1) % TWO_TO_64;
      buffer := [];
      blocks := blocks + 1;
    }

    /** The stream goes on where the buffer ends; once it has failed, all of `all` has been taken. */
    ghost predicate Following(all: seq<Byte>, stream: Source<Byte>)
      reads this, digest, stream
    {
      && stream.Valid() && Taken(all)
      && if stream.good then |buffer| == BLOCK_BYTES && stream.Rest() == all[blocks * BLOCK_BYTES + BLOCK_BYTES..]
         else blocks * BLOCK_BYTES + |buffer| == |all| && |buffer| < BLOCK_BYTES
    }

    /** Fills what is free of the buffer. */
    method FillBuffer(stream: Source<Byte>, ghost all: seq<Byte>)
      requires Taken(all) && |buffer| < BLOCK_BYTES && stream.Valid()
      requires if stream.good then stream.Rest() == all[blocks * BLOCK_BYTES + |buffer|..]
               else blocks * BLOCK_BYTES + |buffer| == |all|
      modifies this`buffer, stream
      ensures Following(all, stream)
      ensures old(stream.good) ==> |stream.Rest()| <= old(|stream.Rest()|) && (!stream.good ==> stream.Rest() == [])
      ensures stream.good ==> old(stream.good) && |stream.Rest()| < old(|stream.Rest()|)
    {
      hide Fold, Step;
      ghost var taken := blocks * BLOCK_BYTES + |buffer|;
      ghost var rest := stream.Rest();
      var restOfBuffer := stream.Read(BLOCK_BYTES - |buffer|);
      TakeEnds(rest);
      TakeOfDrop(all, taken, |restOfBuffer|);
      DropDrop(all, taken, |restOfBuffer|);
      TwoParts(all, blocks * BLOCK_BYTES, taken, taken + |restOfBuffer|);
      buffer := buffer + restOfBuffer;
    }

    /** What has been taken so far is the beginning of whatever goes on from it. */
    lemma GoesOn(all: seq<Byte>)
      requires Valid() && message <= all
      ensures Taken(all)
    {
      hide Fold, Step;
      assert all[..blocks * BLOCK_BYTES] == message[..blocks * BLOCK_BYTES];
    }

    /** Hashes what a stream has to give. */
    method Update(stream: Source<Byte>)
      requires Valid() && stream.Valid()
      modifies this, digest, stream
      ensures Valid() && stream.Valid()
      ensures message == old(message) + if old(stream.good) then old(stream.Rest()) else []
      ensures old(stream.good) ==> stream.Rest() == []
    {
      ghost var all := message + if stream.good then stream.Rest() else [];
      GoesOn(all);
      hide Fold, Step, Taken;
      FillBuffer(stream, all);
      while stream.good
        invariant Following(all, stream)
        invariant old(stream.good) && !stream.good ==> stream.Rest() == []
        decreases |stream.Rest()|, stream.good
      {
        TransformBuffer(all);
        FillBuffer(stream, all);
      }
      message := all;
    }

    /** Appends the one bit and fills the buffer with zeros. */
    method PadBuffer()
      requires |buffer| < BLOCK_BYTES
      modifies this`buffer
      ensures buffer == old(buffer) + [0x80] + Zeros(BLOCK_BYTES - 1 - old(|buffer|))
    {
      buffer := buffer + [0x80];
      var origSize := |buffer|;
      while |buffer| < BLOCK_BYTES
        invariant origSize <= |buffer| <= BLOCK_BYTES
        invariant buffer == old(buffer) + [0x80] + Zeros(|buffer| - origSize)
      {
        buffer := buffer + [0];
      }
    }

    /** Sets all words but the last two to zero. */
    static method ClearBlock(block: array<Word>)
      requires block.Length == 16
      modifies block
      ensures block[..14] == WordsOf(Zeros(BLOCK_BYTES))[..14]
    {
      ZeroWords();
      hide ToWord, WordsOf;
      for i := 0 to 14
        invariant forall k :: 0 <= k < i ==> block[k] == ToWord(0)
      {
        block[i] := ToWord(0);
      }
    }

    /** Puts the length in bits into the last two words. */
    static method PutLength(block: array<Word>, totalBits: nat, ghost bytes: seq<Byte>, ghost n: nat)
      requires block.Length == 16 && |bytes| == BLOCK_BYTES && block[..14] == WordsOf(bytes)[..14]
      requires totalBits == n % TWO_TO_64
      modifies block
      ensures block[..] == WordsOf(bytes[..56] + BigEndian(n, 8))
    {
      LengthWords(bytes, n);
      SplitCount(n);
      hide ToWord, WordsOf, BigEndian;
      block[15] := ToWord(totalBits % TWO_TO_32);
      block[14] := ToWord(totalBits / TWO_TO_32);
    }

    /** Pads, transforms what is left and returns the digest; the object is reset.  `totalBits` is the
        64-bit count of the message's bits. */
    method Finalize() returns (result: seq<Word>)
      requires Valid()
      modifies this, digest
      ensures Valid() && message == []
      ensures result == Digested(old(message))
    {
      hide Compress, WordsOf, Fold, Step, Tail, Digested, BigEndian, ToWord;
      ghost var rest, n := buffer, |message|;
      ghost var tail := Tail(rest, n);
      var totalBits := (transforms * BLOCK_BYTES + |buffer|) * 8 % TWO_TO_64;
      BitCount(blocks, |buffer|);
      TailDigested(message, blocks);
      assert rest == message[blocks * BLOCK_BYTES..];
      assert |tail| == if |rest| < 56 then BLOCK_BYTES else 2 * BLOCK_BYTES;
      var origSize := |buffer| + 1;
      PadBuffer();
      TailBlocks(rest, buffer, n);
      var block := BufferToBlock(buffer);
      if origSize > BLOCK_BYTES - 8 {
        Transform(digest, block);
        ClearBlock(block);
        PutLength(block, totalBits, Zeros(BLOCK_BYTES), 8 * n);
      } else {
        PutLength(block, totalBits, buffer, 8 * n);
      }
      Transform(digest, block);
      result := digest[..];
      Reset();
    }
  }

  /** Hashing a message in pieces gives the digest of the message, however it has been split. */
  method HashPieces(pieces: seq<seq<Byte>>) returns (result: seq<Word>)
    ensures result == Digested(Joined(pieces))
  {
    hide Digested;
    var sha := new Sha1();
    for k := 0 to |pieces|
      invariant sha.Valid() && sha.message == Joined(pieces[..k]) && fresh(sha) && fresh(sha.digest)
    {
      var piece := new Source(pieces[k]);
      sha.Update(piece);
      JoinedStep(pieces, k);
    }
    assert pieces[..|pieces|] == pieces;
    result := sha.Finalize();
  }

  lemma ZeroWords()
    ensures forall i :: 0 <= i < 16 ==> WordsOf(Zeros(BLOCK_BYTES))[i] == ToWord(0)
  {
    hide ToWord;
  }
}
