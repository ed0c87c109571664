/** SHA-1's block compression: the schedule of section 6.1.2 of FIPS 180-4, and the unrolled rounds
    over a circular schedule that compute it in place. */
module Sha1Compression {

  type Word = bv32

  /** Rotations to the left. */
  function Rol1(x: Word): Word {
    (x << 1) | (x >> 31)
  }

  function Rol5(x: Word): Word {
    (x << 5) | (x >> 27)
  }

  function Rol30(x: Word): Word {
    (x << 30) | (x >> 2)
  }

  function Plus(x: Word, y: Word): Word {
    x + y
  }

  function Xor4(x: Word, y: Word, z: Word, u: Word): Word {
    x ^ y ^ z ^ u
  }

  // ----- FIPS 180-4 ------------------------------------------------------------------------------

  function Ch(x: Word, y: Word, z: Word): Word {
    (x & y) ^ (!x & z)
  }

  function Parity(x: Word, y: Word, z: Word): Word {
    x ^ y ^ z
  }

  function Maj(x: Word, y: Word, z: Word): Word {
    (x & y) ^ (x & z) ^ (y & z)
  }

  /** The function of round `t`. */
  function F(t: nat, x: Word, y: Word, z: Word): Word {
    if t < 20 then Ch(x, y, z) else if 40 <= t < 60 then Maj(x, y, z) else Parity(x, y, z)
  }

  /** The constant of round `t`. */
  function K(t: nat): Word {
    if t < 20 then 0x5a827999 else if t < 40 then 0x6ed9eba1 else if t < 60 then 0x8f1bbcdc else 0xca62c1d6
  }

  type Block = b: seq<Word> | |b| == 16 witness seq(16, _ => 0)

  /** The message schedule. */
  function W(block: Block, t: nat): Word {
    if t < 16 then block[t]
    else Rol1(Xor4(W(block, t - 3), W(block, t - 8), W(block, t - 14), W(block, t - 16)))
  }

  datatype Registers = Registers(a: Word, b: Word, c: Word, d: Word, e: Word)

  function Sum(a: Word, f: Word, e: Word, k: Word, w: Word): Word {
    a + f + e + k + w
  }

  /** One round. */
  function Round(r: Registers, t: nat, w: Word): Registers {
    Registers(Sum(Rol5(r.a), F(t, r.b, r.c, r.d), r.e, K(t), w), r.a, Rol30(r.b), r.c, r.d)
  }

  /** The first `n` rounds. */
  function Rounds(r: Registers, block: Block, n: nat): Registers {
    if n == 0 then r else Round(Rounds(r, block, n - 1), n - 1, W(block, n - 1))
  }

  type Digest = h: seq<Word> | |h| == 5 witness seq(5, _ => 0)

  /** The digest that follows `h` when `block` has been processed. */
  function Compress(h: Digest, block: Block): Digest {
    var r := Rounds(Registers(h[0], h[1], h[2], h[3], h[4]), block, 80);
    [Plus(h[0], r.a), Plus(h[1], r.b), Plus(h[2], r.c), Plus(h[3], r.d), Plus(h[4], r.e)]
  }

  // ----- The program's rounds ----------------------------------------------------------------------

  /** The round functions as the program writes them. */
  function Choose(w: Word, x: Word, y: Word): Word {
    (w & (x ^ y)) ^ y
  }

  function Majority(w: Word, x: Word, y: Word): Word {
    ((w | x) & y) | (w & x)
  }

  function Mix(i: nat, w: Word, x: Word, y: Word): Word {
    if i < 20 then Choose(w, x, y) else if 40 <= i < 60 then Majority(w, x, y) else Parity(w, x, y)
  }

  /** The constants of the macros `SHA1_R0` to `SHA1_R4`, by the rounds that they are used for. */
  function MacroConstant(i: nat): Word {
    if i < 16 then 0x5a827999
    else if i < 20 then 0x5a827999
    else if i < 40 then 0x6ed9eba1
    else if i < 60 then 0x8f1bbcdc
    else 0xca62c1d6
  }

  lemma MacroConstantIsK(i: nat)
    ensures MacroConstant(i) == K(i)
  {
  }

  lemma ChooseInThree(w: Word, x: Word, y: Word)
    ensures (w & (x ^ y)) ^ y == (w & x) ^ (!w & y)
  {
  }

  lemma MajorityInFour(w: Word, x: Word, y: Word)
    ensures ((w | x) & y) | (w & x) == (w & x) ^ (w & y) ^ (x & y)
  {
  }

  lemma ChooseIsCh(w: Word, x: Word, y: Word)
    ensures Choose(w, x, y) == Ch(w, x, y)
  {
    ChooseInThree(w, x, y);
    assert Choose(w, x, y) == (w & (x ^ y)) ^ y;
    assert Ch(w, x, y) == (w & x) ^ (!w & y);
  }

  lemma MajorityIsMaj(w: Word, x: Word, y: Word)
    ensures Majority(w, x, y) == Maj(w, x, y)
  {
    MajorityInFour(w, x, y);
    assert Majority(w, x, y) == ((w | x) & y) | (w & x);
    assert Maj(w, x, y) == (w & x) ^ (w & y) ^ (x & y);
  }

  lemma MixIsF(i: nat, w: Word, x: Word, y: Word)
    ensures Mix(i, w, x, y) == F(i, w, x, y)
  {
    ChooseIsCh(w, x, y);
    MajorityIsMaj(w, x, y);
    hide Choose, Majority, Ch, Maj, Parity;
  }

  /** What the program adds to a register in a round. */
  function Accumulate(e: Word, f: Word, w: Word, k: Word, a: Word): Word {
    e + (f + w + k + a)
  }

  lemma SumInAnyOrder(a: Word, f: Word, e: Word, k: Word, w: Word)
    ensures e + (f + w + k + a) == a + f + e + k + w
  {
  }

  lemma AccumulateIsSum(a: Word, f: Word, e: Word, k: Word, w: Word)
    ensures Accumulate(e, f, w, k, a) == Sum(a, f, e, k, w)
  {
    SumInAnyOrder(a, f, e, k, w);
    assert Accumulate(e, f, w, k, a) == e + (f + w + k + a);
    assert Sum(a, f, e, k, w) == a + f + e + k + w;
  }

  /** The last sixteen words of the schedule that have been computed are in the array, each in the place
      of its number modulo 16; at first, these are the words of the block. */
  ghost predicate Circular(words: array<Word>, block: Block, n: nat)
    reads words
  {
    && words.Length == 16
    && forall k :: (if n < 16 then 0 else n - 16) <= k < (if n < 16 then 16 else n) ==> words[k % 16] == W(block, k)
  }

  /** The word of the schedule for round `i`; from the sixteenth on it replaces the oldest one. */
  method NextWord(words: array<Word>, i: nat, ghost block: Block) returns (w: Word)
    requires Circular(words, block, i)
    modifies words
    ensures Circular(words, block, i + 1) && w == W(block, i)
  {
    hide Rol1, Xor4;
    if i < 16 {
      assert words[i % 16] == W(block, i);
      w := words[i];
    } else {
      WordsAt(words, i, block);
      w := Rol1(Xor4(words[(i + 13) % 16], words[(i + 8) % 16], words[(i + 2) % 16], words[i % 16]));
      assert w == W(block, i);
      hide W;
      words[i % 16] := w;
      forall k | i - 15 <= k < i + 1 ensures words[k % 16] == W(block, k) {
        if k < i { Apart(i, k); }
      }
    }
  }

  /** Where the words are that the next one is computed from. */
  lemma WordsAt(words: array<Word>, i: nat, block: Block)
    requires Circular(words, block, i) && i >= 16
    ensures words[(i + 13) % 16] == W(block, i - 3) && words[(i + 8) % 16] == W(block, i - 8)
    ensures words[(i + 2) % 16] == W(block, i - 14) && words[i % 16] == W(block, i - 16)
  {
    hide W;
    assert (i + 13) % 16 == (i - 3) % 16 && (i + 8) % 16 == (i - 8) % 16;
    assert (i + 2) % 16 == (i - 14) % 16 && i % 16 == (i - 16) % 16;
  }

  lemma Apart(i: nat, k: nat)
    requires i - 16 < k < i
    ensures k % 16 != i % 16
  {
  }

  /** One round on registers under their names of the moment: only `z` and `w` change. */
  method RoundStep(v: Word, w: Word, x: Word, y: Word, z: Word, i: nat, words: array<Word>, ghost block: Block)
    returns (w': Word, z': Word)
    requires Circular(words, block, i)
    modifies words
    ensures Circular(words, block, i + 1)
    ensures Registers(z', v, w', x, y) == Round(Registers(v, w, x, y, z), i, W(block, i))
  {
    hide Mix, F, K, MacroConstant, Rol5, Rol30, W, Circular, Sum, Accumulate;
    var s := NextWord(words, i, block);
    MixIsF(i, w, x, y);
    MacroConstantIsK(i);
    AccumulateIsSum(Rol5(v), Mix(i, w, x, y), z, K(i), s);
    z' := Accumulate(z, Mix(i, w, x, y), s, MacroConstant(i), Rol5(v));
    w' := Rol30(w);
  }

  /** Five of the unrolled rounds, after which the registers have their names again. */
  method FiveSteps(r: Registers, i: nat, words: array<Word>, ghost block: Block) returns (after: Registers)
    requires Circular(words, block, i)
    modifies words
    ensures Circular(words, block, i + 5)
    ensures after ==
      Round(Round(Round(Round(Round(r,
        i, W(block, i)), i + 1, W(block, i + 1)), i + 2, W(block, i + 2)), i + 3, W(block, i + 3)),
        i + 4, W(block, i + 4))
  {
    hide Round, W, Circular;
    var a, b, c, d, e := r.a, r.b, r.c, r.d, r.e;
    b, e := RoundStep(a, b, c, d, e, i, words, block);
    a, d := RoundStep(e, a, b, c, d, i + 1, words, block);
    e, c := RoundStep(d, e, a, b, c, i + 2, words, block);
    d, b := RoundStep(c, d, e, a, b, i + 3, words, block);
    c, a := RoundStep(b, c, d, e, a, i + 4, words, block);
    after := Registers(a, b, c, d, e);
  }

  /** The rounds.  The names of the registers come round every five of the unrolled ones. */
  method RunRounds(start: Registers, words: array<Word>) returns (r: Registers)
    requires words.Length == 16
    modifies words
    ensures r == Rounds(start, old(words[..]), 80)
  {
    ghost var block: Block := words[..];
    Loaded(words, block);
    assert Rounds(start, block, 0) == start;
    hide Round, W, Circular, Rounds;
    r := start;
    for turn := 0 to 16
      invariant Circular(words, block, 5 * turn) && r == Rounds(start, block, 5 * turn)
    {
      FiveRounds(start, block, 5 * turn);
      r := FiveSteps(r, 5 * turn, words, block);
    }
  }

  /** Processes a block, whose words are overwritten by the schedule. */
  method Transform(digest: array<Word>, words: array<Word>)
    requires digest.Length == 5 && words.Length == 16 && digest != words
    modifies digest, words
    ensures digest[..] == Compress(old(digest[..]), old(words[..]))
  {
    hide Rounds, Plus;
    var r := RunRounds(Registers(digest[0], digest[1], digest[2], digest[3], digest[4]), words);
    digest[0] := Plus(digest[0], r.a);
    digest[1] := Plus(digest[1], r.b);
    digest[2] := Plus(digest[2], r.c);
    digest[3] := Plus(digest[3], r.d);
    digest[4] := Plus(digest[4], r.e);
  }

  lemma Loaded(words: array<Word>, block: Block)
    requires words.Length == 16 && words[..] == block
    ensures Circular(words, block, 0)
  {
    forall k | 0 <= k < 16 ensures words[k % 16] == W(block, k) {
      assert words[k] == words[..][k];
    }
  }

  lemma FiveRounds(r: Registers, block: Block, i: nat)
    ensures var s := Rounds(r, block, i);
      Rounds(r, block, i + 5) ==
      Round(Round(Round(Round(Round(s,
        i, W(block, i)), i + 1, W(block, i + 1)), i + 2, W(block, i + 2)), i + 3, W(block, i + 3)),
        i + 4, W(block, i + 4))
  {
    hide Round, W;
    assert Rounds(r, block, i + 1) == Round(Rounds(r, block, i), i, W(block, i));
    assert Rounds(r, block, i + 2) == Round(Rounds(r, block, i + 1), i + 1, W(block, i + 1));
    assert Rounds(r, block, i + 3) == Round(Rounds(r, block, i + 2), i + 2, W(block, i + 2));
    assert Rounds(r, block, i + 4) == Round(Rounds(r, block, i + 3), i + 3, W(block, i + 3));
    assert Rounds(r, block, i + 5) == Round(Rounds(r, block, i + 4), i + 4, W(block, i + 4));
  }
}
