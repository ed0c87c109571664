/** Base64 encoding and decoding, in the standard alphabet and in the URL-safe one. */
module Base64 {
  import opened Bytes
  import opened Option
  import opened Sequences
  import opened Streams

  type Sextet = v: int | 0 <= v < 64

  datatype Alphabet = Standard | UrlSafe

  const PAD: char := '='

  // ----- The tables --------------------------------------------------------------------------

  function EncodeCharacter(alphabet: Alphabet, v: Sextet): char {
    if v < 26 then ('A' as int + v) as char
    else if v < 52 then ('a' as int + (v - 26)) as char
    else if v < 62 then ('0' as int + (v - 52)) as char
    else if v == 62 then (if alphabet.Standard? then '+' else '-')
    else (if alphabet.Standard? then '/' else '_')
  }

  /** Characters that are not in the alphabet decode to -1. */
  function DecodeCharacter(alphabet: Alphabet, c: char): (v: int)
    ensures -1 <= v < 64
  {
    if 'A' <= c <= 'Z' then c as int - 'A' as int
    else if 'a' <= c <= 'z' then c as int - 'a' as int + 26
    else if '0' <= c <= '9' then c as int - '0' as int + 52
    else if c == (if alphabet.Standard? then '+' else '-') then 62
    else if c == (if alphabet.Standard? then '/' else '_') then 63
    else -1
  }

  lemma TablesAreInverse(alphabet: Alphabet, v: Sextet)
    ensures DecodeCharacter(alphabet, EncodeCharacter(alphabet, v)) == v
    ensures EncodeCharacter(alphabet, v) != PAD && EncodeCharacter(alphabet, v) < 128 as char
  {
  }

  // ----- Groups --------------------------------------------------------------------------------

  /** The four sextets of three bytes; shifts and masks are written as arithmetic. */
  function Sextets(a: Byte, b: Byte, c: Byte): (r: (Sextet, Sextet, Sextet, Sextet)) {
    (a / 4, a % 4 * 16 + b / 16, b % 16 * 4 + c / 64, c % 64)
  }

  /** The three bytes of four decoded characters, as their conversion to bytes leaves them. */
  function FromSextets(p: int, q: int, r: int, s: int): (Byte, Byte, Byte) {
    ((p * 4 + q / 16 % 4) % 256, (q % 16 * 16 + r / 4 % 16) % 256, (r % 4 * 64 + s) % 256)
  }

  /** Two numbers packed into one. */
  lemma Packed16(high: nat, low: nat)
    requires low < 16
    ensures (high * 16 + low) / 16 == high && (high * 16 + low) % 16 == low
  {
  }

  lemma Packed4(high: nat, low: nat)
    requires low < 4
    ensures (high * 4 + low) / 4 == high && (high * 4 + low) % 4 == low
  {
  }

  lemma GroupComesBack(a: Byte, b: Byte, c: Byte)
    ensures var s := Sextets(a, b, c); FromSextets(s.0, s.1, s.2, s.3) == (a, b, c)
  {
    Packed16(a % 4, b / 16);
    Packed4(b % 16, c / 64);
    FirstByte(a);
    SecondByte(b);
    ThirdByte(c);
  }

  lemma FirstByte(a: Byte)
    ensures (a / 4 * 4 + a % 4 % 4) % 256 == a
  {
  }

  lemma SecondByte(b: Byte)
    ensures (b / 16 * 16 + b % 16 % 16) % 256 == b && b / 16 < 16
  {
  }

  lemma ThirdByte(c: Byte)
    ensures (c / 64 % 4 * 64 + c % 64) % 256 == c && c / 64 < 4
  {
  }

  /** With fewer than four characters the bytes that are complete come back all the same. */
  lemma PartComesBack(a: Byte, b: Byte, r: int, s: int)
    ensures FromSextets(Sextets(a, 0, 0).0, Sextets(a, 0, 0).1, r, s).0 == a
    ensures FromSextets(Sextets(a, b, 0).0, Sextets(a, b, 0).1, Sextets(a, b, 0).2, s).0 == a
    ensures FromSextets(Sextets(a, b, 0).0, Sextets(a, b, 0).1, Sextets(a, b, 0).2, s).1 == b
  {
    FirstComesBack(a, 0, r, s);
    FirstComesBack(a, b, Sextets(a, b, 0).2, s);
    SecondComesBack(a, b, s);
    hide Sextets, FromSextets;
  }

  lemma FirstComesBack(a: Byte, b: Byte, r: int, s: int)
    ensures FromSextets(Sextets(a, b, 0).0, Sextets(a, b, 0).1, r, s).0 == a
  {
    Packed16(a % 4, b / 16);
    FirstByte(a);
  }

  lemma SecondComesBack(a: Byte, b: Byte, s: int)
    ensures FromSextets(Sextets(a, b, 0).0, Sextets(a, b, 0).1, Sextets(a, b, 0).2, s).1 == b
  {
    Packed16(a % 4, b / 16);
    Packed4(b % 16, 0);
    SecondByte(b);
  }

  // ----- The functions that the loops compute ----------------------------------------------------

  /** The first `n` characters of a group. */
  function GroupText(alphabet: Alphabet, a: Byte, b: Byte, c: Byte, n: nat): (text: string)
    requires n <= 4
    ensures |text| == n
  {
    var s := Sextets(a, b, c);
    [EncodeCharacter(alphabet, s.0), EncodeCharacter(alphabet, s.1), EncodeCharacter(alphabet, s.2),
      EncodeCharacter(alphabet, s.3)][..n]
  }

  function Encoded(alphabet: Alphabet, pad: bool, bytes: seq<Byte>): string {
    if bytes == [] then ""
    else if |bytes| == 1 then GroupText(alphabet, bytes[0], 0, 0, 2) + if pad then [PAD, PAD] else ""
    else if |bytes| == 2 then GroupText(alphabet, bytes[0], bytes[1], 0, 3) + if pad then [PAD] else ""
    else GroupText(alphabet, bytes[0], bytes[1], bytes[2], 4) + Encoded(alphabet, pad, bytes[3..])
  }

  predicate IsText(s: string) {
    forall i :: 0 <= i < |s| ==> s[i] < 128 as char
  }

  /** What precedes the first padding character. */
  function Body(s: string): (body: string)
    ensures |body| <= |s| && body == s[..|body|] && PAD !in body
    ensures |body| < |s| ==> s[|body|] == PAD
  {
    if s == "" || s[0] == PAD then "" else [s[0]] + Body(s[1..])
  }

  function ValueAt(alphabet: Alphabet, s: string, i: nat): int {
    if i < |s| then DecodeCharacter(alphabet, s[i]) else -1
  }

  /** The bytes of the first four characters of `s`; those that are missing count as invalid. */
  function GroupBytes(alphabet: Alphabet, s: string): (r: seq<Byte>)
    ensures |r| == 3
  {
    var b := FromSextets(
      ValueAt(alphabet, s, 0), ValueAt(alphabet, s, 1), ValueAt(alphabet, s, 2), ValueAt(alphabet, s, 3));
    [b.0, b.1, b.2]
  }

  function DecodedBody(alphabet: Alphabet, s: string): seq<Byte> {
    if s == "" then []
    else if |s| < 4 then GroupBytes(alphabet, s)[..|s| - 1]
    else GroupBytes(alphabet, s) + DecodedBody(alphabet, s[4..])
  }

  function Decoded(alphabet: Alphabet, s: string): seq<Byte> {
    DecodedBody(alphabet, Body(s))
  }

  // ----- Round trips -----------------------------------------------------------------------------

  /** The characters of a group decode to its bytes, as far as they are complete. */
  lemma GroupDecodes(alphabet: Alphabet, a: Byte, b: Byte, c: Byte, rest: string)
    ensures GroupBytes(alphabet, GroupText(alphabet, a, b, c, 4) + rest) == [a, b, c]
    ensures GroupBytes(alphabet, GroupText(alphabet, a, 0, 0, 2))[..1] == [a]
    ensures GroupBytes(alphabet, GroupText(alphabet, a, b, 0, 3))[..2] == [a, b]
  {
    var s, t, u := Sextets(a, b, c), Sextets(a, 0, 0), Sextets(a, b, 0);
    TablesAreInverse(alphabet, s.0);
    TablesAreInverse(alphabet, s.1);
    TablesAreInverse(alphabet, s.2);
    TablesAreInverse(alphabet, s.3);
    TablesAreInverse(alphabet, t.0);
    TablesAreInverse(alphabet, t.1);
    TablesAreInverse(alphabet, u.0);
    TablesAreInverse(alphabet, u.1);
    TablesAreInverse(alphabet, u.2);
    GroupComesBack(a, b, c);
    PartComesBack(a, b, -1, -1);
    hide EncodeCharacter, DecodeCharacter, Sextets, FromSextets;
  }

  lemma GroupIsBody(alphabet: Alphabet, a: Byte, b: Byte, c: Byte, n: nat)
    requires n <= 4
    ensures PAD !in GroupText(alphabet, a, b, c, n) && IsText(GroupText(alphabet, a, b, c, n))
  {
    var s := Sextets(a, b, c);
    TablesAreInverse(alphabet, s.0);
    TablesAreInverse(alphabet, s.1);
    TablesAreInverse(alphabet, s.2);
    TablesAreInverse(alphabet, s.3);
  }

  lemma {:induction false} BodyOfSum(s: string, rest: string)
    requires PAD !in s
    ensures Body(s + rest) == s + Body(rest)
  {
    if s == "" {
      assert s + rest == rest;
    } else {
      assert (s + rest)[1..] == s[1..] + rest;
      BodyOfSum(s[1..], rest);
    }
  }

  /** Decoding what has been encoded gives the bytes back, with and without padding. */
  lemma {:induction false} DecodesWhatIsEncoded(alphabet: Alphabet, pad: bool, bytes: seq<Byte>)
    ensures IsText(Encoded(alphabet, pad, bytes))
    ensures Decoded(alphabet, Encoded(alphabet, pad, bytes)) == bytes
  {
    hide GroupText, GroupBytes, IsText;
    if bytes == [] {
      assert IsText("") by { NothingIsText(); }
    } else if |bytes| == 1 {
      var text := GroupText(alphabet, bytes[0], 0, 0, 2);
      GroupDecodes(alphabet, bytes[0], 0, 0, "");
      Padded(alphabet, bytes[0], 0, 0, 2, if pad then [PAD, PAD] else "");
    } else if |bytes| == 2 {
      GroupDecodes(alphabet, bytes[0], bytes[1], 0, "");
      Padded(alphabet, bytes[0], bytes[1], 0, 3, if pad then [PAD] else "");
    } else {
      var text, rest := GroupText(alphabet, bytes[0], bytes[1], bytes[2], 4), Encoded(alphabet, pad, bytes[3..]);
      DecodesWhatIsEncoded(alphabet, pad, bytes[3..]);
      GroupIsBody(alphabet, bytes[0], bytes[1], bytes[2], 4);
      BodyOfSum(text, rest);
      GroupDecodes(alphabet, bytes[0], bytes[1], bytes[2], Body(rest));
      assert (text + Body(rest))[4..] == Body(rest);
      assert [bytes[0], bytes[1], bytes[2]] + bytes[3..] == bytes;
      TextOfSum(text, rest);
    }
  }

  lemma NothingIsText()
    ensures IsText("")
  {
  }

  lemma TextOfSum(s: string, t: string)
    requires IsText(s) && IsText(t)
    ensures IsText(s + t)
  {
  }

  lemma Padded(alphabet: Alphabet, a: Byte, b: Byte, c: Byte, n: nat, padding: string)
    requires n <= 4 && forall i :: 0 <= i < |padding| ==> padding[i] == PAD
    ensures Body(GroupText(alphabet, a, b, c, n) + padding) == GroupText(alphabet, a, b, c, n)
    ensures IsText(GroupText(alphabet, a, b, c, n) + padding)
  {
    var text := GroupText(alphabet, a, b, c, n);
    GroupIsBody(alphabet, a, b, c, n);
    assert Body(padding) == "" && IsText(padding);
    hide *;
    BodyOfSum(text, padding);
    TextOfSum(text, padding);
    assert text + "" == text;
  }

  /** Four characters for every three bytes begun, or, without padding, only as many as are needed. */
  lemma {:induction false} EncodedLength(alphabet: Alphabet, pad: bool, bytes: seq<Byte>)
    ensures |Encoded(alphabet, pad, bytes)| == if pad then (|bytes| + 2) / 3 * 4 else (|bytes| * 4 + 2) / 3
  {
    if |bytes| > 2 {
      EncodedLength(alphabet, pad, bytes[3..]);
      ThreeMore(|bytes| - 3);
    }
    hide GroupText;
  }

  lemma ThreeMore(n: nat)
    ensures (n + 3 + 2) / 3 * 4 == (n + 2) / 3 * 4 + 4 && ((n + 3) * 4 + 2) / 3 == (n * 4 + 2) / 3 + 4
  {
  }

  // ----- The loops -------------------------------------------------------------------------------

  lemma {:induction false} EncodedOfSum(alphabet: Alphabet, pad: bool, s: seq<Byte>, t: seq<Byte>)
    requires |s| % 3 == 0
    ensures Encoded(alphabet, pad, s + t) == Encoded(alphabet, pad, s) + Encoded(alphabet, pad, t)
  {
    hide GroupText;
    if s == [] {
      assert s + t == t;
    } else {
      assert (s + t)[3..] == s[3..] + t;
      EncodedOfSum(alphabet, pad, s[3..], t);
    }
  }

  lemma {:induction false} DecodedOfSum(alphabet: Alphabet, s: string, t: string)
    requires |s| % 4 == 0
    ensures DecodedBody(alphabet, s + t) == DecodedBody(alphabet, s) + DecodedBody(alphabet, t)
  {
    if s == "" {
      assert s + t == t;
    } else {
      assert (s + t)[4..] == s[4..] + t;
      DecodedOfSum(alphabet, s[4..], t);
      hide DecodedBody, FromSextets, DecodeCharacter;
    }
  }

  /** Three more bytes, at a place where a group begins, add a group. */
  lemma GroupAdded(alphabet: Alphabet, pad: bool, input: seq<Byte>, k: nat)
    requires k % 3 == 0 && k + 3 <= |input|
    ensures Encoded(alphabet, pad, input[..k + 3]) ==
            Encoded(alphabet, pad, input[..k]) + GroupText(alphabet, input[k], input[k + 1], input[k + 2], 4)
  {
    var group := input[k..k + 3];
    assert input[..k + 3] == input[..k] + group;
    EncodedOfSum(alphabet, pad, input[..k], group);
    assert group[3..] == [];
    assert Encoded(alphabet, pad, group) == GroupText(alphabet, input[k], input[k + 1], input[k + 2], 4);
  }

  /** What is left when the last group has been encoded. */
  lemma PartAdded(alphabet: Alphabet, pad: bool, input: seq<Byte>, k: nat)
    requires k % 3 == 0 && k <= |input| < k + 3
    ensures Encoded(alphabet, pad, input) == Encoded(alphabet, pad, input[..k]) + Encoded(alphabet, pad, input[k..])
    ensures k == |input| ==> Encoded(alphabet, pad, input) == Encoded(alphabet, pad, input[..k])
  {
    assert input[..k] + input[k..] == input;
    EncodedOfSum(alphabet, pad, input[..k], input[k..]);
  }

  function Padding(n: nat): (padding: string) {
    if n == 0 then "" else [PAD] + Padding(n - 1)
  }

  lemma {:induction false} OneMorePad(n: nat)
    ensures Padding(n) + [PAD] == Padding(n + 1)
  {
    if n > 0 {
      OneMorePad(n - 1);
      assert [PAD] + Padding(n - 1) + [PAD] == [PAD] + (Padding(n - 1) + [PAD]);
    }
  }

  /** Encodes the one or two bytes that are left. */
  method EncodePart(alphabet: Alphabet, pad: bool, buff1: array<Byte>, length: nat) returns (text: string)
    requires buff1.Length == 3 && 0 < length < 3
    modifies buff1
    ensures text == Encoded(alphabet, pad, old(buff1[..length]))
  {
    var i := length;
    ghost var part := buff1[..i];
    for j := i to 3
      invariant buff1[..i] == part
      invariant forall l :: i <= l < j ==> buff1[l] == 0
    {
      buff1[j] := 0;
    }
    assert buff1[0] == part[0] && (i == 2 ==> buff1[1] == part[1]);
    var padding := "";
    text := GroupText(alphabet, buff1[0], buff1[1], buff1[2], i + 1);
    if pad {
      while i < 3
        invariant length <= i <= 3 && padding == Padding(i - length)
      {
        OneMorePad(i - length);
        padding := padding + [PAD];
        i := i + 1;
      }
    }
    assert Padding(2) == [PAD] + Padding(1) && Padding(1) == [PAD] + Padding(0) && Padding(0) == "";
    text := text + padding;
  }

  /** The bytes that have been encoded, in groups of three, and those that are waiting in `buff1`. */
  ghost predicate Grouped(alphabet: Alphabet, pad: bool, taken: seq<Byte>, buff1: array<Byte>, i: nat, output: string)
    reads buff1
  {
    && buff1.Length == 3 && i == |taken| % 3
    && buff1[..i] == taken[|taken| - i..]
    && output == Encoded(alphabet, pad, taken[..|taken| - i])
  }

  lemma NothingGrouped(alphabet: Alphabet, pad: bool, buff1: array<Byte>)
    requires buff1.Length == 3
    ensures Grouped(alphabet, pad, [], buff1, 0, "")
  {
  }

  /** Takes one more byte. */
  method TakeByte(alphabet: Alphabet, b: Byte, buff1: array<Byte>, length: nat, text: string, ghost pad: bool,
          ghost taken: seq<Byte>)
    returns (i: nat, output: string)
    requires Grouped(alphabet, pad, taken, buff1, length, text)
    modifies buff1
    ensures Grouped(alphabet, pad, taken + [b], buff1, i, output)
  {
    hide GroupText, Encoded;
    i, output := length, text;
    ghost var start := |taken| - i;
    ghost var all := taken + [b];
    buff1[i] := b;
    i := i + 1;
    assert buff1[..i] == all[start..] && all[..start] == taken[..start];
    if i == 3 {
      GroupAdded(alphabet, pad, all, start);
      assert buff1[0] == all[start] && buff1[1] == all[start + 1];
      assert all[..start + 3] == all;
      output := output + GroupText(alphabet, buff1[0], buff1[1], buff1[2], 4);
      i := 0;
    }
  }

  /** Ends the text with what is waiting. */
  method EndText(alphabet: Alphabet, pad: bool, buff1: array<Byte>, i: nat, text: string,
          ghost taken: seq<Byte>) returns (output: string)
    requires Grouped(alphabet, pad, taken, buff1, i, text)
    modifies buff1
    ensures output == Encoded(alphabet, pad, taken)
  {
    output := text;
    PartAdded(alphabet, pad, taken, |taken| - i);
    if i != 0 {
      var part := EncodePart(alphabet, pad, buff1, i);
      output := output + part;
    }
  }

  /** Encodes a vector. */
  method Encode(alphabet: Alphabet, pad: bool, input: seq<Byte>) returns (output: string)
    ensures output == Encoded(alphabet, pad, input)
  {
    var buff1 := new Byte[3];
    var i := 0;
    output := "";
    NothingGrouped(alphabet, pad, buff1);
    hide Grouped, Encoded;
    TakeEnds(input);
    for k := 0 to |input|
      invariant Grouped(alphabet, pad, input[..k], buff1, i, output)
    {
      i, output := TakeByte(alphabet, input[k], buff1, i, output, pad, input[..k]);
      TakeMore(input, k);
    }
    output := EndText(alphabet, pad, buff1, i, output, input);
  }

  /** The next element of `all`, of which `k` have been read. */
  method ReadNext<B>(input: Source<B>, ghost all: seq<B>, ghost k: nat) returns (next: Option<B>)
    requires input.Valid() && k <= |all| && input.Rest() == all[k..]
    modifies input
    ensures input.Valid()
    ensures if k < |all| then next == Some(all[k]) && input.Rest() == all[k + 1..]
            else next == None && input.Rest() == []
  {
    if k < |all| { DropDrop(all, k, 1); }
    next := input.ReadSome();
  }

  /** Encodes what a stream has at hand. */
  method EncodeStream(alphabet: Alphabet, pad: bool, input: Source<Byte>) returns (output: string)
    requires input.Valid()
    modifies input
    ensures input.Valid() && input.Rest() == []
    ensures output == Encoded(alphabet, pad, old(input.Rest()))
  {
    var buff1 := new Byte[3];
    ghost var all := input.Rest();
    ghost var k := 0;
    output := "";
    var i := 0;
    NothingGrouped(alphabet, pad, buff1);
    hide Grouped, Encoded;
    TakeEnds(all);
    var next := ReadNext(input, all, k);
    while next.Some?
      invariant input.Valid() && k <= |all|
      invariant Grouped(alphabet, pad, all[..k], buff1, i, output)
      invariant if next.Some? then k < |all| && next.value == all[k] && input.Rest() == all[k + 1..]
                else k == |all| && input.Rest() == []
      decreases |all| - k
    {
      i, output := TakeByte(alphabet, next.value, buff1, i, output, pad, all[..k]);
      TakeMore(all, k);
      k := k + 1;
      next := ReadNext(input, all, k);
    }
    output := EndText(alphabet, pad, buff1, i, output, all);
  }

  // ----- Decoding loops ----------------------------------------------------------------------------

  /** The first `k` characters have no padding among them. */
  ghost predicate NoPad(s: string, k: nat) {
    k <= |s| && PAD !in s[..k]
  }

  lemma NoPadYet(s: string, k: nat)
    ensures NoPad(s, 0)
    ensures NoPad(s, k) && k < |s| && s[k] != PAD ==> NoPad(s, k + 1)
  {
    if k < |s| { assert s[..k + 1] == s[..k] + [s[k]]; }
  }

  lemma {:induction false} BodyAt(s: string, k: nat)
    requires NoPad(s, k) && (k < |s| ==> s[k] == PAD)
    ensures Body(s) == s[..k]
  {
    assert s[..k] + s[k..] == s;
    BodyOfSum(s[..k], s[k..]);
    assert Body(s[k..]) == "" && s[..k] + "" == s[..k];
  }

  lemma BytesAdded(alphabet: Alphabet, s: string, k: nat)
    requires k % 4 == 0 && k + 4 <= |s|
    ensures DecodedBody(alphabet, s[..k + 4]) == DecodedBody(alphabet, s[..k]) + GroupBytes(alphabet, s[k..k + 4])
  {
    var group := s[k..k + 4];
    assert s[..k + 4] == s[..k] + group;
    DecodedOfSum(alphabet, s[..k], group);
    assert group[4..] == "" && DecodedBody(alphabet, "") == [];
    assert DecodedBody(alphabet, group) == GroupBytes(alphabet, group) + [];
  }

  lemma LastBytesAdded(alphabet: Alphabet, s: string, k: nat)
    requires k % 4 == 0 && k <= |s| < k + 4
    ensures DecodedBody(alphabet, s) ==
      DecodedBody(alphabet, s[..k]) + if k == |s| then [] else GroupBytes(alphabet, s[k..])[..|s| - k - 1]
  {
    assert s[..k] + s[k..] == s;
    DecodedOfSum(alphabet, s[..k], s[k..]);
  }

  /** The characters that have been decoded, in groups of four, and those that wait in `buff2`. */
  ghost predicate Gathered(alphabet: Alphabet, taken: string, buff2: array<int>, i: nat, output: seq<Byte>)
    reads buff2
  {
    && buff2.Length == 4 && i == |taken| % 4
    && (forall j :: 0 <= j < i ==> buff2[j] == taken[|taken| - i + j] as int)
    && |output| == DecodedLength(|taken| - i)
    && (IsText(taken[..|taken| - i]) ==> output == DecodedBody(alphabet, taken[..|taken| - i]))
  }

  lemma NothingGathered(alphabet: Alphabet, buff2: array<int>)
    requires buff2.Length == 4
    ensures Gathered(alphabet, "", buff2, 0, [])
  {
  }

  /** The number of bytes that `n` characters decode to. */
  function DecodedLength(n: nat): nat {
    n / 4 * 3 + if n % 4 == 0 then 0 else n % 4 - 1
  }

  lemma FourMore(n: nat)
    ensures DecodedLength(n + 4) == DecodedLength(n) + 3 && (n + 4) % 4 == n % 4
  {
  }

  lemma LastFew(n: nat, i: nat)
    requires n % 4 == 0 && i < 4
    ensures DecodedLength(n + i) == DecodedLength(n) + if i == 0 then 0 else i - 1
  {
  }

  lemma PartsAreText(s: string, k: nat)
    requires k <= |s|
    ensures IsText(s) <==> IsText(s[..k]) && IsText(s[k..])
  {
    assert s == s[..k] + s[k..];
  }

  /** Replaces characters by their values and gives the bytes that they make.  What a character from 128 on is
      replaced by is left open: it depends on whether the type of characters is signed. */
  method DecodeGroup(alphabet: Alphabet, buff2: array<int>, ghost text: string) returns (bytes: seq<Byte>)
    requires buff2.Length == 4 && |text| <= 4
    requires forall j :: 0 <= j < |text| ==> buff2[j] == text[j] as int
    requires forall j :: |text| <= j < 4 ==> buff2[j] == 0
    modifies buff2
    ensures |bytes| == 3 && (IsText(text) ==> bytes == GroupBytes(alphabet, text))
  {
    for i := 0 to 4
      invariant IsText(text) ==> forall j :: 0 <= j < i ==> buff2[j] == ValueAt(alphabet, text, j)
      invariant forall j :: i <= j < 4 ==> buff2[j] == old(buff2[j])
    {
      if 0 <= buff2[i] < 128 {
        buff2[i] := DecodeCharacter(alphabet, buff2[i] as char);
      } else {
        buff2[i] := *;
      }
    }
    var b := FromSextets(buff2[0], buff2[1], buff2[2], buff2[3]);
    bytes := [b.0, b.1, b.2];
  }

  /** Takes one more character. */
  method TakeCharacter(alphabet: Alphabet, c: char, buff2: array<int>, length: nat, bytes: seq<Byte>,
          ghost taken: string)
    returns (i: nat, output: seq<Byte>)
    requires Gathered(alphabet, taken, buff2, length, bytes)
    modifies buff2
    ensures Gathered(alphabet, taken + [c], buff2, i, output)
  {
    hide GroupBytes, DecodedBody, DecodedLength, IsText;
    i, output := length, bytes;
    ghost var start := |taken| - i;
    ghost var all := taken + [c];
    buff2[i] := c as int;
    i := i + 1;
    TakeOfSum(taken, [c], start);
    assert forall j :: 0 <= j < i ==> buff2[j] == all[start + j] as int;
    if i == 4 {
      TakeEnds(all);
      BytesAdded(alphabet, all, start);
      PartsAreText(all, start);
      FourMore(start);
      var group := DecodeGroup(alphabet, buff2, all[start..start + 4]);
      assert all[start..start + 4] == all[start..];
      output := output + group;
      i := 0;
    }
  }

  method ClearFrom(buff2: array<int>, i: nat)
    requires buff2.Length == 4 && i <= 4
    modifies buff2
    ensures forall l :: 0 <= l < i ==> buff2[l] == old(buff2[l])
    ensures forall l :: i <= l < 4 ==> buff2[l] == 0
  {
    for j := i to 4
      invariant forall l :: 0 <= l < i ==> buff2[l] == old(buff2[l])
      invariant forall l :: i <= l < j ==> buff2[l] == 0
    {
      buff2[j] := 0;
    }
  }

  /** Decodes the characters that are waiting, as far as they make bytes. */
  method EndBytes(alphabet: Alphabet, buff2: array<int>, i: nat, bytes: seq<Byte>,
          ghost taken: string) returns (output: seq<Byte>)
    requires Gathered(alphabet, taken, buff2, i, bytes)
    modifies buff2
    ensures |output| == DecodedLength(|taken|) && (IsText(taken) ==> output == DecodedBody(alphabet, taken))
  {
    output := bytes;
    LastBytesAdded(alphabet, taken, |taken| - i);
    PartsAreText(taken, |taken| - i);
    LastFew(|taken| - i, i);
    hide GroupBytes, DecodedBody;
    if i != 0 {
      ghost var text := taken[|taken| - i..];
      ClearFrom(buff2, i);
      assert forall l :: 0 <= l < i ==> buff2[l] == text[l] as int;
      var group := DecodeGroup(alphabet, buff2, text);
      output := output + group[..i - 1];
    }
  }

  /** Decodes a string up to the first padding character.  If there is a character from 128 on before that, only
      the number of bytes is known. */
  method Decode(alphabet: Alphabet, input: string) returns (output: seq<Byte>)
    ensures |output| == DecodedLength(|Body(input)|)
    ensures IsText(Body(input)) ==> output == Decoded(alphabet, input)
  {
    var buff2 := new int[4];
    var i := 0;
    output := [];
    NothingGathered(alphabet, buff2);
    hide Gathered, DecodedBody, DecodedLength, IsText, Body, NoPad;
    var k := 0;
    TakeEnds(input);
    NoPadYet(input, 0);
    while k != |input| && input[k] != PAD
      invariant k <= |input| && NoPad(input, k)
      invariant Gathered(alphabet, input[..k], buff2, i, output)
    {
      i, output := TakeCharacter(alphabet, input[k], buff2, i, output, input[..k]);
      TakeMore(input, k);
      NoPadYet(input, k);
      k := k + 1;
    }
    BodyAt(input, k);
    output := EndBytes(alphabet, buff2, i, output, input[..k]);
  }

  /** Decodes what a stream has at hand, up to the first padding character, which it takes. */
  method DecodeStream(alphabet: Alphabet, input: Source<char>) returns (output: seq<Byte>)
    requires input.Valid()
    modifies input
    ensures input.Valid()
    ensures |output| == DecodedLength(|Body(old(input.Rest()))|)
    ensures IsText(Body(old(input.Rest()))) ==> output == Decoded(alphabet, old(input.Rest()))
    ensures var body := Body(old(input.Rest()));
      |input.Rest()| == if |body| == old(|input.Rest()|) then 0 else old(|input.Rest()|) - |body| - 1
  {
    ghost var all, k := input.Rest(), 0;
    hide DecodedBody, DecodedLength, IsText, Body;
    var buff2, i;
    buff2, i, output, k := GatherStream(alphabet, input);
    output := EndBytes(alphabet, buff2, i, output, all[..k]);
  }

  /** Takes the characters up to the first padding, or the end. */
  method GatherStream(alphabet: Alphabet, input: Source<char>)
    returns (buff2: array<int>, i: nat, output: seq<Byte>, ghost k: nat)
    requires input.Valid()
    modifies input
    ensures input.Valid() && fresh(buff2)
    ensures var all := old(input.Rest());
      && k <= |all| && Body(all) == all[..k] && Gathered(alphabet, all[..k], buff2, i, output)
      && |input.Rest()| == if k == |all| then 0 else |all| - k - 1
  {
    ghost var all := input.Rest();
    k, i, output := 0, 0, [];
    buff2 := new int[4];
    NothingGathered(alphabet, buff2);
    hide Gathered, DecodedBody, DecodedLength, IsText, Body, NoPad;
    TakeEnds(all);
    NoPadYet(all, 0);
    var next := ReadNext(input, all, k);
    while next.Some? && next.value != PAD
      invariant input.Valid() && k <= |all| && NoPad(all, k) && fresh(buff2)
      invariant Gathered(alphabet, all[..k], buff2, i, output)
      invariant if next.Some? then k < |all| && next.value == all[k] && input.Rest() == all[k + 1..]
                else k == |all| && input.Rest() == []
      decreases |all| - k
    {
      i, output := TakeCharacter(alphabet, next.value, buff2, i, output, all[..k]);
      TakeMore(all, k);
      NoPadYet(all, k);
      k := k + 1;
      next := ReadNext(input, all, k);
    }
    BodyAt(all, k);
  }
}
