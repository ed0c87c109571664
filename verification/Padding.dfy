module Bytes {
  type Byte = b: int | 0 <= b < 256

  const TWO_TO_32: int := 0x1_0000_0000
  const TWO_TO_64: int := 0x1_0000_0000_0000_0000
}

/** The padding of sections 5.1.1 and 5.1.2 of FIPS 180-4, and hashing by blocks. */
module Padding {
  import opened Bytes

  /** The last `size` bytes of `n`, most significant first. */
  function BigEndian(n: nat, size: nat): (bytes: seq<Byte>)
    ensures |bytes| == size
  {
    if size == 0 then [] else BigEndian(n / 256, size - 1) + [n % 256]
  }

  function Zeros(n: nat): (bytes: seq<Byte>)
    ensures |bytes| == n
    ensures forall i :: 0 <= i < n ==> bytes[i] == 0
  {
    seq(n, _ => 0)
  }

  /** The least number of zero bytes that brings a padded message of `n` bytes to whole blocks. */
  function ZeroCount(n: nat, blockSize: nat, lengthSize: nat): (k: nat)
    requires blockSize > 0
    ensures k < blockSize
  {
    (blockSize - (n + 1 + lengthSize) % blockSize) % blockSize
  }

  /** What padding appends to a message of `n` bytes: a one bit, zeros, and the length in bits. */
  function Suffix(n: nat, blockSize: nat, lengthSize: nat): seq<Byte>
    requires blockSize > 0
  {
    [0x80] + Zeros(ZeroCount(n, blockSize, lengthSize)) + BigEndian(8 * n, lengthSize)
  }

  function Padded(message: seq<Byte>, blockSize: nat, lengthSize: nat): seq<Byte>
    requires blockSize > 0
  {
    message + Suffix(|message|, blockSize, lengthSize)
  }

  /** Feeds the whole blocks of `data` to a compression function. */
  function Fold<H>(compress: (H, seq<Byte>) -> H, h: H, data: seq<Byte>, blockSize: nat): H
    requires blockSize > 0
  {
    if |data| < blockSize then h
    else Fold(compress, compress(h, data[..blockSize]), data[blockSize..], blockSize)
  }

  /** `k` zeros bring a message of `n` bytes to whole blocks. */
  predicate Fills(k: int, n: nat, blockSize: nat, lengthSize: nat)
    requires blockSize > 0
  {
    (n + 1 + k + lengthSize) % blockSize == 0
  }

  lemma {:induction false} FoldOfSum<H>(compress: (H, seq<Byte>) -> H, h: H, blocks: nat, s: seq<Byte>, t: seq<Byte>,
          blockSize: nat)
    requires blockSize > 0 && |s| == blocks * blockSize
    ensures Fold(compress, h, s + t, blockSize) == Fold(compress, Fold(compress, h, s, blockSize), t, blockSize)
    decreases blocks
  {
    if blocks == 0 {
      assert s + t == t;
    } else {
      assert |s| == (blocks - 1) * blockSize + blockSize;
      assert (s + t)[blockSize..] == s[blockSize..] + t && (s + t)[..blockSize] == s[..blockSize];
      FoldOfSum(compress, compress(h, s[..blockSize]), blocks - 1, s[blockSize..], t, blockSize);
    }
  }

  /** One more block. */
  lemma FoldBlock<H>(compress: (H, seq<Byte>) -> H, h: H, blocks: nat, s: seq<Byte>, block: seq<Byte>, blockSize: nat)
    requires blockSize > 0 && |s| == blocks * blockSize && |block| == blockSize
    ensures Fold(compress, h, s + block, blockSize) == compress(Fold(compress, h, s, blockSize), block)
  {
    FoldOfSum(compress, h, blocks, s, block, blockSize);
    assert block[..blockSize] == block && block[blockSize..] == [];
  }

  /** The padded message is a whole number of blocks, and no shorter run of zeros would do. */
  lemma PaddedIsWhole(message: seq<Byte>, blockSize: nat, lengthSize: nat)
    requires blockSize == 64 || blockSize == 128
    ensures |Padded(message, blockSize, lengthSize)| % blockSize == 0
    ensures forall k :: 0 <= k <= ZeroCount(|message|, blockSize, lengthSize) ==>
      (Fills(k, |message|, blockSize, lengthSize) <==> k == ZeroCount(|message|, blockSize, lengthSize))
  {
    var n := |message|;
    var zeros := ZeroCount(n, blockSize, lengthSize);
    forall k | 0 <= k <= zeros ensures Fills(k, n, blockSize, lengthSize) <==> k == zeros {
      if blockSize == 64 { Fills64(n + 1 + lengthSize, k); } else { Fills128(n + 1 + lengthSize, k); }
      assert n + 1 + lengthSize + k == n + 1 + k + lengthSize;
    }
    assert Fills(zeros, n, blockSize, lengthSize);
    assert |Padded(message, blockSize, lengthSize)| == n + 1 + zeros + lengthSize;
  }

  lemma Fills64(m: nat, k: nat)
    requires k <= (64 - m % 64) % 64
    ensures (m + k) % 64 == 0 <==> k == (64 - m % 64) % 64
  {
  }

  lemma Fills128(m: nat, k: nat)
    requires k <= (128 - m % 128) % 128
    ensures (m + k) % 128 == 0 <==> k == (128 - m % 128) % 128
  {
  }

  /** The message that pieces make. */
  function Joined(pieces: seq<seq<Byte>>): seq<Byte> {
    if pieces == [] then [] else Joined(pieces[..|pieces| - 1]) + pieces[|pieces| - 1]
  }

  lemma JoinedStep(pieces: seq<seq<Byte>>, k: nat)
    requires k < |pieces|
    ensures Joined(pieces[..k + 1]) == Joined(pieces[..k]) + pieces[k]
  {
    assert pieces[..k + 1][..k] == pieces[..k];
  }

  // ----- Lengths in big-endian order -----------------------------------------------------------------

  /** The number that four bytes make. */
  function Quad(a: Byte, b: Byte, c: Byte, d: Byte): (n: nat)
    ensures n < TWO_TO_32
  {
    a * 0x1000000 + b * 0x10000 + c * 0x100 + d
  }

  lemma BigEndianUnfold(n: nat)
    ensures BigEndian(n, 4) == [n / 256 / 256 / 256 % 256, n / 256 / 256 % 256, n / 256 % 256, n % 256]
  {
    var n1 := n / 256;
    var n2 := n1 / 256;
    var n3 := n2 / 256;
    assert BigEndian(n3, 1) == [n3 % 256] by { assert BigEndian(n3 / 256, 0) == []; }
    assert BigEndian(n2, 2) == BigEndian(n3, 1) + [n2 % 256];
    assert BigEndian(n1, 3) == BigEndian(n2, 2) + [n1 % 256];
  }

  lemma DividedAgain(n: nat)
    ensures n / 256 / 256 == n / 0x10000 && n / 256 / 256 / 256 == n / 0x1000000
  {
  }

  lemma QuadOfBytes(n: nat)
    ensures Quad(n / 256 / 256 / 256 % 256, n / 256 / 256 % 256, n / 256 % 256, n % 256) == n % TWO_TO_32
  {
    var n1 := n / 256;
    var n2 := n1 / 256;
    var n3 := n2 / 256;
    ModuloOf(n / 256 / 256 / 256 / 256, Quad(n3 % 256, n2 % 256, n1 % 256, n % 256));
    assert n == 256 * n1 + n % 256 && n1 == 256 * n2 + n1 % 256;
    assert n2 == 256 * n3 + n2 % 256 && n3 == 256 * (n3 / 256) + n3 % 256;
  }

  lemma ModuloOf(q: nat, r: nat)
    requires r < TWO_TO_32
    ensures (q * TWO_TO_32 + r) % TWO_TO_32 == r
  {
  }

  lemma BigEndianQuad(n: nat)
    ensures BigEndian(n, 4) == [n / 0x1000000 % 256, n / 0x10000 % 256, n / 0x100 % 256, n % 256]
    ensures Quad(n / 0x1000000 % 256, n / 0x10000 % 256, n / 0x100 % 256, n % 256) == n % TWO_TO_32
  {
    BigEndianUnfold(n);
    DividedAgain(n);
    QuadOfBytes(n);
    hide BigEndian, Quad;
  }

  /** The last four bytes, and those before them. */
  lemma BigEndianSplit(n: nat, high: nat)
    ensures BigEndian(n, high + 4) == BigEndian(n / TWO_TO_32, high) + BigEndian(n, 4)
  {
    var n1 := n / 256;
    var n2 := n1 / 256;
    var n3 := n2 / 256;
    var n4 := n3 / 256;
    assert n4 == n / TWO_TO_32 && n3 == n / 0x1000000 && n2 == n / 0x10000;
    BigEndianQuad(n);
    assert BigEndian(n3, high + 1) == BigEndian(n4, high) + [n3 % 256];
    assert BigEndian(n2, high + 2) == BigEndian(n3, high + 1) + [n2 % 256];
    assert BigEndian(n1, high + 3) == BigEndian(n2, high + 2) + [n1 % 256];
    assert BigEndian(n, high + 4) == BigEndian(n1, high + 3) + [n % 256];
    hide BigEndian;
  }

  /** The numbers below this have a representation of `size` bytes. */
  function Power(size: nat): (p: nat)
    ensures p > 0
  {
    if size == 0 then 1 else 256 * Power(size - 1)
  }

  lemma {:induction false} ZeroBytes(n: nat, size: nat)
    requires n < Power(size)
    ensures BigEndian(n, size) == Zeros(size) <==> n == 0
  {
    if size > 0 {
      ZeroBytes(n / 256, size - 1);
      var bytes := BigEndian(n, size);
      assert bytes[..size - 1] == BigEndian(n / 256, size - 1) && bytes[size - 1] == n % 256;
      assert Zeros(size)[..size - 1] == Zeros(size - 1);
      assert Zeros(size) == Zeros(size - 1) + [0];
    }
  }
}
