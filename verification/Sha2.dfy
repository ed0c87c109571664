/** SHA-256 and SHA-512 over a message that arrives in pieces.  The two classes of the program differ in
    the size of their blocks; the compression function is a parameter. */
module Sha2 {
  import opened Bytes
  import opened Padding
  import opened Sequences

  /** SHA-512 is the wide one. */
  function BlockSize(wide: bool): nat {
    if wide then 128 else 64
  }

  /** The bytes of `n` blocks. */
  function SizeOf(wide: bool, n: nat): nat {
    if wide then 128 * n else 64 * n
  }

  /** How many whole blocks there are in `n` bytes, and the bytes that are left. */
  function BlocksIn(wide: bool, n: nat): nat {
    if wide then n / 128 else n / 64
  }

  function RestIn(wide: bool, n: nat): nat {
    if wide then n % 128 else n % 64
  }

  /** The bytes that FIPS 180-4 gives to the length in bits. */
  function LengthSize(wide: bool): nat {
    if wide then 16 else 8
  }

  /** What the program appends to a message of `n` bytes: its length in bits is a 32-bit number. */
  function ProgramSuffix(wide: bool, n: nat): seq<Byte> {
    [0x80] + Zeros(ZeroCount(n, BlockSize(wide), LengthSize(wide)) + LengthSize(wide) - 4)
    + BigEndian(8 * n % TWO_TO_32, 4)
  }

  /** The last byte, and what is above it. */
  lemma LastByte(high: nat, n: nat)
    ensures (high * 256 + n) / 256 == high + n / 256 && (high * 256 + n) % 256 == n % 256
  {
  }

  /** What is above the last four bytes does not matter to them. */
  lemma FourBytesOf(n: nat)
    ensures BigEndian(n % TWO_TO_32, 4) == BigEndian(n, 4)
  {
    var q, r := n / TWO_TO_32, n % TWO_TO_32;
    assert n == q * 0x1000000 * 256 + r;
    LastByte(q * 0x1000000, r);
    var n1, r1 := n / 256, r / 256;
    LastByte(q * 0x10000, r1);
    var n2, r2 := n1 / 256, r1 / 256;
    LastByte(q * 0x100, r2);
    var n3, r3 := n2 / 256, r2 / 256;
    LastByte(q, r3);
    assert n3 % 256 == r3 % 256 && n2 % 256 == r2 % 256 && n1 % 256 == r1 % 256 && n % 256 == r % 256;
    BigEndianUnfold(n);
    BigEndianUnfold(r);
  }

  /** The program pads as FIPS 180-4 does exactly when the length in bits is a 32-bit number, among the
      messages that have a digest at all. */
  lemma SuffixIsRight(wide: bool, n: nat)
    requires 8 * n < Power(LengthSize(wide) - 4) * TWO_TO_32
    ensures ProgramSuffix(wide, n) == Suffix(n, BlockSize(wide), LengthSize(wide)) <==> n < 0x2000_0000
  {
    var high := LengthSize(wide) - 4;
    var k := ZeroCount(n, BlockSize(wide), LengthSize(wide));
    BigEndianSplit(8 * n, high);
    FourBytesOf(8 * n);
    HighPart(8 * n, Power(high));
    ZeroBytes(8 * n / TWO_TO_32, high);
    var low := BigEndian(8 * n, 4);
    hide BigEndian, Power;
    var program, standard := ProgramSuffix(wide, n), Suffix(n, BlockSize(wide), LengthSize(wide));
    assert standard == [0x80] + Zeros(k) + BigEndian(8 * n / TWO_TO_32, high) + low;
    assert program == [0x80] + Zeros(k) + Zeros(high) + low;
    assert standard[1 + k..1 + k + high] == BigEndian(8 * n / TWO_TO_32, high);
    assert program[1 + k..1 + k + high] == Zeros(high);
  }

  lemma HighPart(n: nat, p: nat)
    requires n < p * TWO_TO_32
    ensures n / TWO_TO_32 < p
    ensures n / TWO_TO_32 == 0 <==> n < TWO_TO_32
  {
  }

  // ----- Pieces --------------------------------------------------------------------------------

  /** What has been hashed once `data` has been added: the lengths of what waits in the block and of `data` are
      added as unsigned 32-bit numbers.  If that wraps, `data` is lost, and so is the end of what was waiting. */
  function Taken(wide: bool, message: seq<Byte>, data: seq<Byte>): seq<Byte>
    requires |data| < TWO_TO_32
  {
    if RestIn(wide, |message|) + |data| < TWO_TO_32 then message + data
    else
      RestIsPart(wide, |message|);
      message[..|message| + |data| - TWO_TO_32]
  }

  lemma RestIsPart(wide: bool, n: nat)
    ensures RestIn(wide, n) <= n
  {
  }

  lemma RestOf(wide: bool, blocks: nat, len: nat)
    requires len < BlockSize(wide)
    ensures RestIn(wide, SizeOf(wide, blocks) + len) == len
  {
    if wide { Modulo128(blocks, len); } else { Modulo64(blocks, len); }
  }

  lemma Modulo128(q: nat, r: nat)
    requires r < 128
    ensures (128 * q + r) % 128 == r
  {
  }

  lemma Modulo64(q: nat, r: nat)
    requires r < 64
    ensures (64 * q + r) % 64 == r
  {
  }

  /** The same for all pieces. */
  function AllTaken(wide: bool, pieces: seq<seq<Byte>>): seq<Byte>
    requires forall i :: 0 <= i < |pieces| ==> |pieces[i]| < TWO_TO_32
  {
    if pieces == [] then []
    else Taken(wide, AllTaken(wide, pieces[..|pieces| - 1]), pieces[|pieces| - 1])
  }

  lemma NothingTaken(wide: bool, pieces: seq<seq<Byte>>)
    ensures AllTaken(wide, pieces[..0]) == [] && pieces[..|pieces|] == pieces
  {
  }

  lemma OneMoreTaken(wide: bool, pieces: seq<seq<Byte>>, k: nat)
    requires k < |pieces| && forall i :: 0 <= i < |pieces| ==> |pieces[i]| < TWO_TO_32
    ensures AllTaken(wide, pieces[..k + 1]) == Taken(wide, AllTaken(wide, pieces[..k]), pieces[k])
  {
    hide Taken;
    assert pieces[..k + 1][..k] == pieces[..k];
  }

  /** No piece is so long that its length and that of what waits in the block do not fit 32 bits together. */
  ghost predicate NoneWraps(wide: bool, pieces: seq<seq<Byte>>) {
    forall k :: 0 <= k < |pieces| ==> RestIn(wide, |Joined(pieces[..k])|) + |pieces[k]| < TWO_TO_32
  }

  /** The message is hashed whole exactly if no length wraps. */
  lemma {:induction false} AllIsTaken(wide: bool, pieces: seq<seq<Byte>>)
    requires forall i :: 0 <= i < |pieces| ==> |pieces[i]| < TWO_TO_32
    ensures |AllTaken(wide, pieces)| <= |Joined(pieces)|
    ensures AllTaken(wide, pieces) == Joined(pieces) <==> NoneWraps(wide, pieces)
    ensures |AllTaken(wide, pieces)| == |Joined(pieces)| <==> NoneWraps(wide, pieces)
  {
    if pieces != [] {
      var n := |pieces| - 1;
      AllIsTaken(wide, pieces[..n]);
      LastWraps(wide, pieces);
      TakenLength(wide, AllTaken(wide, pieces[..n]), pieces[n]);
      hide RestIn, NoneWraps, Taken;
    }
  }

  lemma TakenLength(wide: bool, message: seq<Byte>, data: seq<Byte>)
    requires |data| < TWO_TO_32
    ensures RestIn(wide, |message|) + |data| < TWO_TO_32 ==> Taken(wide, message, data) == message + data
    ensures RestIn(wide, |message|) + |data| >= TWO_TO_32 ==> |Taken(wide, message, data)| < |message + data|
    ensures |Taken(wide, message, data)| <= |message + data|
  {
    RestIsPart(wide, |message|);
    hide RestIn;
  }

  lemma LastWraps(wide: bool, pieces: seq<seq<Byte>>)
    requires pieces != []
    ensures var n := |pieces| - 1;
      NoneWraps(wide, pieces) <==>
        NoneWraps(wide, pieces[..n]) && RestIn(wide, |Joined(pieces[..n])|) + |pieces[n]| < TWO_TO_32
  {
    hide RestIn, Joined;
    var n := |pieces| - 1;
    assert forall k :: 0 <= k < n ==> pieces[..n][..k] == pieces[..k] && pieces[..n][k] == pieces[k];
    if NoneWraps(wide, pieces[..n]) && RestIn(wide, |Joined(pieces[..n])|) + |pieces[n]| < TWO_TO_32 {
      forall k | 0 <= k < |pieces| ensures RestIn(wide, |Joined(pieces[..k])|) + |pieces[k]| < TWO_TO_32 {
        if k < n { assert RestIn(wide, |Joined(pieces[..n][..k])|) + |pieces[..n][k]| < TWO_TO_32; }
      }
    }
  }

  /** The bytes that wait in the block if there is no need to transform it. */
  lemma Kept(wide: bool, message: seq<Byte>, data: seq<Byte>, blocks: nat, len: nat, remLen: nat, newLen: nat)
    requires |message| == SizeOf(wide, blocks) + len && len < BlockSize(wide) && |data| < TWO_TO_32
    requires remLen == if |data| < BlockSize(wide) - len then |data| else BlockSize(wide) - len
    requires newLen == (len + |data|) % TWO_TO_32 < BlockSize(wide)
    ensures newLen <= len + remLen && |Taken(wide, message, data)| == SizeOf(wide, blocks) + newLen
    ensures (message[SizeOf(wide, blocks)..] + data[..remLen])[..newLen] ==
      Taken(wide, message, data)[SizeOf(wide, blocks)..]
    ensures Taken(wide, message, data)[..SizeOf(wide, blocks)] == message[..SizeOf(wide, blocks)]
  {
    RestOf(wide, blocks, len);
    SumWraps(len + |data|);
    hide RestIn, SizeOf;
  }

  /** Each piece has less than 2^32 bytes by at least a block. */
  ghost predicate AreShort(wide: bool, pieces: seq<seq<Byte>>) {
    forall i :: 0 <= i < |pieces| ==> |pieces[i]| + BlockSize(wide) <= TWO_TO_32
  }

  lemma ShortPiecesDoNotWrap(wide: bool, pieces: seq<seq<Byte>>)
    requires AreShort(wide, pieces)
    ensures NoneWraps(wide, pieces)
  {
    hide Joined;
  }

  class Sha2<H> {
    const wide: bool
    const compress: (H, seq<Byte>) -> H
    const initial: H
    const block: array<Byte>
    var len: nat
    var totLen: nat
    var h: H

    /** What has been hashed so far; `blocks` counts the blocks of it that have been transformed. */
    ghost var message: seq<Byte>
    ghost var blocks: nat

    ghost predicate Valid()
      reads this, block
    {
      && block.Length == 2 * BlockSize(wide)
      && len < BlockSize(wide)
      && |message| == SizeOf(wide, blocks) + len
      && block[..len] == message[SizeOf(wide, blocks)..]
      && totLen == SizeOf(wide, blocks) % TWO_TO_32
      && h == Fold(compress, initial, message[..SizeOf(wide, blocks)], BlockSize(wide))
    }

    constructor (wide: bool, compress: (H, seq<Byte>) -> H, initial: H)
      ensures Valid() && message == [] && fresh(block)
      ensures this.wide == wide && this.compress == compress && this.initial == initial
    {
      this.wide, this.compress, this.initial := wide, compress, initial;
      block := new Byte[2 * BlockSize(wide)];
      len, totLen := 0, 0;
      h := initial;
      message, blocks := [], 0;
    }

    /** Feeds the first `n` blocks of `data` to the compression function. */
    method Transform(data: seq<Byte>, n: nat)
      requires SizeOf(wide, n) <= |data|
      modifies this`h
      ensures h == Fold(compress, old(h), data[..SizeOf(wide, n)], BlockSize(wide))
    {
      hide Fold;
      NothingFolded(compress, h, data, BlockSize(wide));
      for i := 0 to n
        invariant h == Fold(compress, old(h), data[..SizeOf(wide, i)], BlockSize(wide))
      {
        var subBlock := data[SizeOf(wide, i)..SizeOf(wide, i + 1)];
        assert data[..SizeOf(wide, i + 1)] == data[..SizeOf(wide, i)] + subBlock;
        FoldBlock(compress, old(h), i, data[..SizeOf(wide, i)], subBlock, BlockSize(wide));
        h := compress(h, subBlock);
      }
    }

    /** Copies `data` into the block, from `at` on. */
    method Copy(at: nat, data: seq<Byte>)
      requires at + |data| <= block.Length
      modifies block
      ensures block[at..at + |data|] == data
      ensures forall i :: 0 <= i < block.Length && !(at <= i < at + |data|) ==> block[i] == old(block[i])
    {
      forall i | 0 <= i < |data| {
        block[at + i] := data[i];
      }
    }

    /** Hashes `data`, whose length is an unsigned 32-bit number. */
    method Update(data: seq<Byte>)
      requires Valid() && |data| < TWO_TO_32
      modifies this`len, this`totLen, this`h, this`message, this`blocks, block
      ensures Valid() && message == Taken(wide, old(message), data)
    {
      hide Fold, Taken;
      var remLen := if |data| < BlockSize(wide) - len then |data| else BlockSize(wide) - len;
      Copy(len, data[..remLen]);
      assert block[..len + remLen] == message[SizeOf(wide, blocks)..] + data[..remLen];
      var newLen := (len + |data|) % TWO_TO_32;
      if newLen < BlockSize(wide) {
        Kept(wide, message, data, blocks, len, remLen, newLen);
        assert block[..newLen] == block[..len + remLen][..newLen];
        message := Taken(wide, message, data);
        len := newLen;
        return;
      }
      TakenWhole(wide, message, data, blocks, len);
      UpdateBlocks(data, remLen);
    }

    /** Transforms the block, which is full now, and the `blockNb` blocks that `shifted` begins with. */
    method TransformAll(shifted: seq<Byte>, blockNb: nat, ghost all: seq<Byte>)
      requires block.Length == 2 * BlockSize(wide) && SizeOf(wide, blockNb) <= |shifted|
      requires SizeOf(wide, blocks + 1) + |shifted| == |all|
      requires block[..BlockSize(wide)] == all[SizeOf(wide, blocks)..SizeOf(wide, blocks + 1)]
      requires shifted == all[SizeOf(wide, blocks + 1)..]
      requires h == Fold(compress, initial, all[..SizeOf(wide, blocks)], BlockSize(wide))
      modifies this`h
      ensures SizeOf(wide, blocks + (blockNb + 1)) <= |all|
      ensures h == Fold(compress, initial, all[..SizeOf(wide, blocks + (blockNb + 1))], BlockSize(wide))
    {
      hide Fold;
      var full := block[..BlockSize(wide)];
      ThreeParts(all, SizeOf(wide, blocks), SizeOf(wide, blocks + 1), SizeOf(wide, blocks + 1 + blockNb));
      Transform(full, 1);
      Transform(shifted, blockNb);
      FoldsInTurn(all, blocks, blockNb, all[..SizeOf(wide, blocks)], full, shifted[..SizeOf(wide, blockNb)]);
    }

    /** Transforms the block, which is full now, and the blocks that `data` has beyond it; keeps the
        rest. */
    method UpdateBlocks(data: seq<Byte>, remLen: nat)
      requires block.Length == 2 * BlockSize(wide) && len + remLen == BlockSize(wide) && remLen <= |data|
      requires |message| == SizeOf(wide, blocks) + len
      requires block[..BlockSize(wide)] == message[SizeOf(wide, blocks)..] + data[..remLen]
      requires totLen == SizeOf(wide, blocks) % TWO_TO_32
      requires h == Fold(compress, initial, message[..SizeOf(wide, blocks)], BlockSize(wide))
      modifies this`len, this`totLen, this`h, this`message, this`blocks, block
      ensures Valid() && message == old(message) + data
    {
      var newLen := |data| - remLen;
      var blockNb := BlocksIn(wide, newLen);
      var shifted := data[remLen..];
      ghost var all := message + data;
      hide *;
      WholeBlocks(wide, message, data, blocks, len, remLen, blockNb);
      TransformAll(shifted, blockNb, all);
      KeepBlocks(data, remLen, blockNb);
    }

    /** Keeps what `data` has beyond the `blockNb` blocks that have been transformed. */
    method KeepBlocks(data: seq<Byte>, remLen: nat, blockNb: nat)
      requires block.Length == 2 * BlockSize(wide) && len + remLen == BlockSize(wide) && remLen <= |data|
      requires |message| == SizeOf(wide, blocks) + len && blockNb == BlocksIn(wide, |data| - remLen)
      requires totLen == SizeOf(wide, blocks) % TWO_TO_32 && SizeOf(wide, blocks + (blockNb + 1)) <= |message + data|
      requires h == Fold(compress, initial, (message + data)[..SizeOf(wide, blocks + (blockNb + 1))], BlockSize(wide))
      modifies this`len, this`totLen, this`message, this`blocks, block
      ensures Valid() && message == old(message) + data
    {
      hide *;
      RestOfBlocks(wide, message, data, blocks, len, remLen, blockNb);
      EndBlocks(data[remLen..][SizeOf(wide, blockNb)..], blockNb + 1, message + data);
    }

    /** Keeps the rest, and counts `n` blocks. */
    method EndBlocks(rest: seq<Byte>, n: nat, ghost all: seq<Byte>)
      requires block.Length == 2 * BlockSize(wide) && |rest| < BlockSize(wide)
      requires SizeOf(wide, blocks + n) + |rest| == |all| && rest == all[SizeOf(wide, blocks + n)..]
      requires totLen == SizeOf(wide, blocks) % TWO_TO_32
      requires h == Fold(compress, initial, all[..SizeOf(wide, blocks + n)], BlockSize(wide))
      modifies this`len, this`totLen, this`message, this`blocks, block
      ensures Valid() && message == all
    {
      hide Fold, SizeOf, BlockSize;
      KeepRest(rest, all, blocks + n);
      CountBlocks(n, blocks + n);
      message, blocks := all, blocks + n;
    }

    /** Adds `n` blocks to the 32-bit count of bytes. */
    method CountBlocks(n: nat, ghost total: nat)
      requires totLen == SizeOf(wide, blocks) % TWO_TO_32 && total == blocks + n
      modifies this`totLen
      ensures totLen == SizeOf(wide, total) % TWO_TO_32
    {
      CountWraps(wide, blocks, n);
      totLen := (totLen + SizeOf(wide, n)) % TWO_TO_32;
    }

    /** What does not fill a block is put at its beginning. */
    method KeepRest(rest: seq<Byte>, ghost all: seq<Byte>, ghost done: nat)
      requires block.Length == 2 * BlockSize(wide) && |rest| < BlockSize(wide)
      requires SizeOf(wide, done) + |rest| == |all| && rest == all[SizeOf(wide, done)..]
      modifies this`len, block
      ensures len == |rest| && block[..len] == all[SizeOf(wide, done)..]
    {
      Copy(0, rest);
      len := |rest|;
      assert block[..len] == block[0..0 + |rest|];
    }

    /** Folding in three turns is folding all. */
    lemma FoldsInTurn(all: seq<Byte>, n: nat, m: nat, start: seq<Byte>, middle: seq<Byte>, end: seq<Byte>)
      requires |start| == SizeOf(wide, n) && |middle| == BlockSize(wide) && |end| == SizeOf(wide, m)
      requires SizeOf(wide, n + 1 + m) <= |all| && all[..SizeOf(wide, n + 1 + m)] == start + middle + end
      ensures Fold(compress, initial, all[..SizeOf(wide, n + m + 1)], BlockSize(wide)) ==
        Fold(compress,
             Fold(compress, Fold(compress, initial, start, BlockSize(wide)), middle[..SizeOf(wide, 1)],
                  BlockSize(wide)),
             end, BlockSize(wide))
    {
      hide Fold;
      assert middle[..SizeOf(wide, 1)] == middle;
      FoldOfSum(compress, initial, n + 1, start + middle, end, BlockSize(wide));
      FoldOfSum(compress, initial, n, start, middle, BlockSize(wide));
    }

    /** Puts the padding behind what is in the block. */
    method PadBlock(pmLen: nat, lenB: nat)
      requires block.Length == 2 * BlockSize(wide) && len + 5 <= pmLen <= block.Length
      modifies block
      ensures block[..pmLen] == old(block[..len]) + [0x80] + Zeros(pmLen - len - 5) + BigEndian(lenB, 4)
    {
      hide BigEndian;
      Copy(len, Zeros(pmLen - len));
      assert forall i :: len <= i < pmLen ==> block[i] == block[len..len + (pmLen - len)][i - len];
      block[len] := 0x80;
      Copy(pmLen - 4, BigEndian(lenB, 4));
      assert forall i :: pmLen - 4 <= i < pmLen ==> block[i] == block[pmLen - 4..pmLen - 4 + 4][i - (pmLen - 4)];
    }

    /** Pads what is left, with the length in 32 bits, to one block or two. */
    method PadLast() returns (blockNb: nat)
      requires Valid()
      modifies block
      ensures blockNb <= 2
      ensures block[..SizeOf(wide, blockNb)] == old(block[..len]) + ProgramSuffix(wide, |message|)
    {
      RestOf(wide, 0, len);
      blockNb := if BlockSize(wide) - (LengthSize(wide) + 1) < RestIn(wide, len) then 2 else 1;
      var lenB := (totLen + len) * 8 % TWO_TO_32;
      SuffixFits(wide, blocks, len, blockNb);
      BitsInAll(wide, blocks, len);
      assert len + 5 <= SizeOf(wide, blockNb) <= block.Length;
      SuffixParts(wide, |message|, block[..len], SizeOf(wide, blockNb) - len - 5, lenB);
      hide *;
      PadBlock(SizeOf(wide, blockNb), lenB);
    }

    /** Pads, and transforms the last one or two blocks. */
    method Finalize() returns (digest: H)
      requires Valid()
      modifies this`h, block
      ensures digest == Fold(compress, initial, message + ProgramSuffix(wide, |message|), BlockSize(wide))
      ensures |message| < 0x2000_0000 ==>
        digest == Fold(compress, initial, Padded(message, BlockSize(wide), LengthSize(wide)), BlockSize(wide))
    {
      hide Fold, ProgramSuffix;
      ghost var start, rest, n := message[..SizeOf(wide, blocks)], block[..len], |message|;
      var blockNb := PadLast();
      var last := block[..SizeOf(wide, blockNb)];
      assert message == start + rest;
      assert message + ProgramSuffix(wide, n) == start + last;
      FoldOfSum(compress, initial, blocks, start, last, BlockSize(wide));
      if n < 0x2000_0000 { RightForShort(wide, n); }
      Transform(last, blockNb);
      assert last[..SizeOf(wide, blockNb)] == last;
      digest := h;
    }
  }

  /** Hashing a message in pieces hashes the padded message, however it has been split. */
  method HashPieces<H>(wide: bool, compress: (H, seq<Byte>) -> H, initial: H,
          pieces: seq<seq<Byte>>) returns (digest: H)
    requires forall i :: 0 <= i < |pieces| ==> |pieces[i]| < TWO_TO_32
    ensures var message := AllTaken(wide, pieces);
      && (message == Joined(pieces) <==> NoneWraps(wide, pieces))
      && digest == Fold(compress, initial, message + ProgramSuffix(wide, |message|), BlockSize(wide))
      && (|message| < 0x2000_0000 ==>
            digest == Fold(compress, initial, Padded(message, BlockSize(wide), LengthSize(wide)), BlockSize(wide)))
    ensures AreShort(wide, pieces) ==>
      var message := Joined(pieces);
      && digest == Fold(compress, initial, message + ProgramSuffix(wide, |message|), BlockSize(wide))
      && (|message| < 0x2000_0000 ==>
            digest == Fold(compress, initial, Padded(message, BlockSize(wide), LengthSize(wide)), BlockSize(wide)))
  {
    AllIsTaken(wide, pieces);
    if AreShort(wide, pieces) { ShortPiecesDoNotWrap(wide, pieces); }
    hide AreShort, Fold, ProgramSuffix, Padded, Taken, AllTaken, Joined, NoneWraps, RestIn;
    NothingTaken(wide, pieces);
    var sha := new Sha2<H>(wide, compress, initial);
    for k := 0 to |pieces|
      invariant sha.Valid() && sha.message == AllTaken(wide, pieces[..k]) && fresh(sha) && fresh(sha.block)
      invariant sha.wide == wide && sha.compress == compress && sha.initial == initial
    {
      sha.Update(pieces[k]);
      OneMoreTaken(wide, pieces, k);
    }
    digest := sha.Finalize();
  }

  /** Hashing a string: its length becomes an unsigned 32-bit number. */
  method HashString<H>(wide: bool, compress: (H, seq<Byte>) -> H, initial: H, input: seq<Byte>) returns (digest: H)
    ensures var message := input[..|input| % TWO_TO_32];
      && digest == Fold(compress, initial, message + ProgramSuffix(wide, |message|), BlockSize(wide))
      && (|input| < 0x2000_0000 ==>
            digest == Fold(compress, initial, Padded(input, BlockSize(wide), LengthSize(wide)), BlockSize(wide)))
  {
    var message := input[..|input| % TWO_TO_32];
    assert |input| < 0x2000_0000 ==> message == input;
    assert Taken(wide, [], message) == message by { RestOf(wide, 0, 0); }
    hide Fold, ProgramSuffix, Padded, Taken;
    var sha := new Sha2<H>(wide, compress, initial);
    sha.Update(message);
    digest := sha.Finalize();
  }

  lemma TakenWhole(wide: bool, message: seq<Byte>, data: seq<Byte>, blocks: nat, len: nat)
    requires |message| == SizeOf(wide, blocks) + len && len < BlockSize(wide) && |data| < TWO_TO_32
    requires (len + |data|) % TWO_TO_32 >= BlockSize(wide)
    ensures Taken(wide, message, data) == message + data
    ensures len + |data| >= BlockSize(wide)
  {
    RestOf(wide, blocks, len);
    SumWraps(len + |data|);
    hide RestIn, SizeOf;
  }

  lemma SumWraps(n: nat)
    requires n < 2 * TWO_TO_32
    ensures n % TWO_TO_32 == if n < TWO_TO_32 then n else n - TWO_TO_32
  {
  }

  lemma NothingFolded<H>(compress: (H, seq<Byte>) -> H, h: H, data: seq<Byte>, blockSize: nat)
    requires blockSize > 0
    ensures data[..0] == [] && Fold(compress, h, [], blockSize) == h
  {
  }

  lemma WholePart(wide: bool, n: nat)
    ensures SizeOf(wide, BlocksIn(wide, n)) + RestIn(wide, n) == n
    ensures RestIn(wide, n) < BlockSize(wide)
  {
  }

  /** Where the whole blocks of a message are that is continued beyond a block. */
  lemma WholeBlocks(wide: bool, message: seq<Byte>, data: seq<Byte>, blocks: nat, len: nat, remLen: nat, blockNb: nat)
    requires |message| == SizeOf(wide, blocks) + len && len + remLen == BlockSize(wide) && remLen <= |data|
    requires blockNb == BlocksIn(wide, |data| - remLen)
    ensures var all, shifted := message + data, data[remLen..];
      && SizeOf(wide, blockNb) <= |shifted| && SizeOf(wide, blocks + 1) + |shifted| == |all|
      && SizeOf(wide, blocks) <= SizeOf(wide, blocks + 1)
      && all[..SizeOf(wide, blocks)] == message[..SizeOf(wide, blocks)]
      && all[SizeOf(wide, blocks)..SizeOf(wide, blocks + 1)] == message[SizeOf(wide, blocks)..] + data[..remLen]
      && shifted == all[SizeOf(wide, blocks + 1)..]
  {
    WholePart(wide, |data| - remLen);
    hide BlocksIn, RestIn;
    TakeOfSum(message, data, SizeOf(wide, blocks));
    MiddleOfSum(message, data, SizeOf(wide, blocks), remLen);
    DropOfSum(message, data, remLen);
  }

  /** And where the rest is. */
  lemma RestOfBlocks(wide: bool, message: seq<Byte>, data: seq<Byte>, blocks: nat, len: nat, remLen: nat, blockNb: nat)
    requires |message| == SizeOf(wide, blocks) + len && len + remLen == BlockSize(wide) && remLen <= |data|
    requires blockNb == BlocksIn(wide, |data| - remLen)
    ensures SizeOf(wide, blockNb) <= |data[remLen..]|
    ensures var all, rest := message + data, data[remLen..][SizeOf(wide, blockNb)..];
      && |rest| < BlockSize(wide)
      && SizeOf(wide, blocks + (blockNb + 1)) + |rest| == |all| && rest == all[SizeOf(wide, blocks + (blockNb + 1))..]
  {
    WholePart(wide, |data| - remLen);
    hide BlocksIn, RestIn;
    DropOfSum(message, data, remLen + SizeOf(wide, blockNb));
    DropDrop(data, remLen, SizeOf(wide, blockNb));
  }

  lemma AddWraps(a: nat, b: nat)
    ensures (a % TWO_TO_32 + b) % TWO_TO_32 == (a + b) % TWO_TO_32
  {
    var q, r := a / TWO_TO_32, a % TWO_TO_32;
    assert a + b == q * TWO_TO_32 + (r + b);
  }

  lemma CountWraps(wide: bool, n: nat, m: nat)
    ensures (SizeOf(wide, n) % TWO_TO_32 + SizeOf(wide, m)) % TWO_TO_32 == SizeOf(wide, n + m) % TWO_TO_32
  {
    assert SizeOf(wide, n + m) == SizeOf(wide, n) + SizeOf(wide, m);
    AddWraps(SizeOf(wide, n), SizeOf(wide, m));
  }

  /** One or two blocks are left, according to how much of a block is taken. */
  lemma SuffixFits(wide: bool, blocks: nat, len: nat, blockNb: nat)
    requires len < BlockSize(wide) && blockNb == if BlockSize(wide) - (LengthSize(wide) + 1) < len then 2 else 1
    ensures len + 1 + ZeroCount(SizeOf(wide, blocks) + len, BlockSize(wide), LengthSize(wide)) + LengthSize(wide) ==
      SizeOf(wide, blockNb)
  {
  }

  lemma SuffixParts(wide: bool, n: nat, bytes: seq<Byte>, zeros: nat, bits: nat)
    requires zeros == ZeroCount(n, BlockSize(wide), LengthSize(wide)) + LengthSize(wide) - 4
    requires bits == 8 * n % TWO_TO_32
    ensures bytes + [0x80] + Zeros(zeros) + BigEndian(bits, 4) == bytes + ProgramSuffix(wide, n)
  {
    hide BigEndian, ZeroCount;
  }

  lemma BitsInAll(wide: bool, blocks: nat, len: nat)
    ensures (SizeOf(wide, blocks) % TWO_TO_32 + len) * 8 % TWO_TO_32 == 8 * (SizeOf(wide, blocks) + len) % TWO_TO_32
  {
  }

  lemma RightForShort(wide: bool, n: nat)
    requires n < 0x2000_0000
    ensures ProgramSuffix(wide, n) == Suffix(n, BlockSize(wide), LengthSize(wide))
  {
    assert Power(LengthSize(wide) - 4) >= 1;
    SuffixIsRight(wide, n);
  }
}
