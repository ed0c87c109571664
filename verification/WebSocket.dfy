/** WebSocket frames (section 5.2 of RFC 6455), as they are written and read. */
module WebSocket {
  import opened Bytes
  import opened Option
  import opened Padding
  import opened Sequences
  import opened Streams

  type Key = k: seq<Byte> | |k| == 4 witness [0, 0, 0, 0]

  const NO_KEY: Key := [0, 0, 0, 0]

  /** FIN, and the opcode for text. */
  const FIN_TEXT: Byte := 0x81

  // ----- Masking -------------------------------------------------------------------------------

  /** Exclusive or, bit by bit. */
  function XorBits(a: nat, b: nat, bits: nat): nat {
    if bits == 0 then 0 else 2 * XorBits(a / 2, b / 2, bits - 1) + (a % 2 + b % 2) % 2
  }

  function PowerOfTwo(n: nat): nat {
    if n == 0 then 1 else 2 * PowerOfTwo(n - 1)
  }

  lemma XorHalf(a: nat, b: nat, bits: nat)
    requires bits > 0
    ensures var x, high, low := XorBits(a, b, bits), XorBits(a / 2, b / 2, bits - 1), (a % 2 + b % 2) % 2;
      x == 2 * high + low && x / 2 == high && x % 2 == low
  {
    Halves(XorBits(a / 2, b / 2, bits - 1), (a % 2 + b % 2) % 2);
  }

  lemma {:induction false} XorTwice(a: nat, b: nat, bits: nat)
    requires a < PowerOfTwo(bits)
    ensures XorBits(a, b, bits) < PowerOfTwo(bits)
    ensures XorBits(XorBits(a, b, bits), b, bits) == a
  {
    if bits > 0 {
      XorTwice(a / 2, b / 2, bits - 1);
      var x := XorBits(a, b, bits);
      XorHalf(a, b, bits);
      XorHalf(x, b, bits);
      LowBit(a % 2, b % 2);
      assert a == 2 * (a / 2) + a % 2 && PowerOfTwo(bits) == 2 * PowerOfTwo(bits - 1);
      hide XorBits, PowerOfTwo;
    }
  }

  lemma {:induction false} XorZero(a: nat, bits: nat)
    requires a < PowerOfTwo(bits)
    ensures XorBits(a, 0, bits) == a
  {
    if bits > 0 {
      XorZero(a / 2, bits - 1);
      LowBit(a % 2, 0);
    }
  }

  lemma Halves(high: nat, low: nat)
    requires low < 2
    ensures (2 * high + low) / 2 == high && (2 * high + low) % 2 == low
  {
  }

  lemma LowBit(a: nat, b: nat)
    requires a < 2 && b < 2
    ensures ((a + b) % 2 + b) % 2 == a && (a + b) % 2 < 2 && (a + 0) % 2 == a
  {
  }

  function Xor(a: Byte, b: Byte): Byte {
    XorIsByte(a, b);
    XorBits(a, b, 8)
  }

  lemma XorIsByte(a: Byte, b: Byte)
    ensures XorBits(a, b, 8) < 256
  {
    PowerOfEight();
    XorTwice(a, b, 8);
  }

  lemma PowerOfEight()
    ensures PowerOfTwo(8) == 256
  {
    assert PowerOfTwo(4) == 16;
  }

  lemma XorGivesBack(a: Byte, b: Byte)
    ensures Xor(Xor(a, b), b) == a && Xor(a, 0) == a
  {
    PowerOfEight();
    XorTwice(a, b, 8);
    XorZero(a, 8);
  }

  function Masked(payload: seq<Byte>, key: Key): (masked: seq<Byte>)
    ensures |masked| == |payload|
  {
    seq(|payload|, i requires 0 <= i < |payload| => Xor(payload[i], key[i % 4]))
  }

  lemma MaskedTwice(payload: seq<Byte>, key: Key)
    ensures Masked(Masked(payload, key), key) == payload
    ensures Masked(payload, NO_KEY) == payload
  {
    hide Xor;
    forall i | 0 <= i < |payload|
      ensures Xor(Xor(payload[i], key[i % 4]), key[i % 4]) == payload[i] && Xor(payload[i], 0) == payload[i]
    {
      XorGivesBack(payload[i], key[i % 4]);
    }
    assert forall i :: 0 <= i < 4 ==> NO_KEY[i] == 0;
  }

  // ----- Frames ----------------------------------------------------------------------------------

  /** The length of the payload, in the shortest of its three forms. */
  function LengthField(n: nat, maskBit: Byte): (field: seq<Byte>)
    requires maskBit == 0 || maskBit == 128
  {
    if n <= 125 then [n + maskBit]
    else if n <= 65535 then [126 + maskBit] + BigEndian(n, 2)
    else [127 + maskBit] + BigEndian(n, 8)
  }

  /** A frame with its first byte, and with a masking key or without. */
  function Frame(first: Byte, payload: seq<Byte>, key: Option<Key>): seq<Byte> {
    [first] + LengthField(|payload|, if key.Some? then 128 else 0)
    + (if key.Some? then key.value + Masked(payload, key.value) else payload)
  }

  /** The number that bytes make, most significant first. */
  function ValueOf(bytes: seq<Byte>): nat {
    if bytes == [] then 0 else 256 * ValueOf(bytes[..|bytes| - 1]) + bytes[|bytes| - 1]
  }

  /** What a stream begins with: a whole frame, with its payload unmasked, or less than that. */
  datatype Decoded = Incomplete | Complete(payload: seq<Byte>, opcode: Byte, rest: seq<Byte>)

  /** The length of the payload, and where its field ends. */
  function DecodeLength(s: seq<Byte>): Option<(nat, nat)>
    requires |s| >= 2
  {
    var n := s[1] % 128;
    if n == 126 then (if |s| < 4 then None else Some((ValueOf(s[2..4]), 4)))
    else if n == 127 then (if |s| < 10 then None else Some((ValueOf(s[2..10]), 10)))
    else Some((n, 2))
  }

  function Decode(s: seq<Byte>): Decoded {
    if |s| < 2 || DecodeLength(s).None? then Incomplete
    else
      var (length, at) := DecodeLength(s).value;
      DecodeBody(s[0] % 16, s[1] >= 128, length, s[at..])
  }

  /** The masking key, if there is one, and the payload. */
  function DecodeBody(opcode: Byte, mask: bool, length: nat, body: seq<Byte>): Decoded {
    if |body| < (if mask then 4 else 0) + length then Incomplete
    else if mask then Complete(Masked(body[4..][..length], body[..4]), opcode, body[4..][length..])
    else Complete(body[..length], opcode, body[length..])
  }

  lemma {:induction false} ValueOfBigEndian(n: nat, size: nat)
    requires n < Power(size)
    ensures ValueOf(BigEndian(n, size)) == n
  {
    if size > 0 {
      var bytes := BigEndian(n, size);
      assert bytes[..size - 1] == BigEndian(n / 256, size - 1) && bytes[size - 1] == n % 256;
      assert ValueOf(bytes) == 256 * ValueOf(bytes[..size - 1]) + bytes[size - 1];
      assert Power(size) == 256 * Power(size - 1);
      hide BigEndian, ValueOf, Power;
      QuotientBelow(n, Power(size - 1));
      ValueOfBigEndian(n / 256, size - 1);
    }
  }

  lemma QuotientBelow(n: nat, p: nat)
    requires n < 256 * p
    ensures n / 256 < p && n == 256 * (n / 256) + n % 256
  {
  }

  lemma Powers()
    ensures Power(2) == 65536 && Power(8) == TWO_TO_64
  {
    assert Power(4) == 0x1_0000_0000;
  }

  lemma LengthComesBack(first: Byte, n: nat, maskBit: Byte, rest: seq<Byte>)
    requires (maskBit == 0 || maskBit == 128) && n < TWO_TO_64
    ensures var s := [first] + LengthField(n, maskBit) + rest;
      |s| >= 2 && s[0] == first && (s[1] >= 128 <==> maskBit == 128)
      && DecodeLength(s) == Some((n, 1 + |LengthField(n, maskBit)|))
  {
    if n > 65535 {
      EightByteLength(first, n, maskBit, rest);
    } else if n > 125 {
      TwoByteLength(first, n, maskBit, rest);
    }
  }

  lemma EightByteLength(first: Byte, n: nat, maskBit: Byte, rest: seq<Byte>)
    requires (maskBit == 0 || maskBit == 128) && 65535 < n < TWO_TO_64
    ensures var s := [first] + LengthField(n, maskBit) + rest;
      |s| >= 10 && s[0] == first && s[1] == 127 + maskBit && DecodeLength(s) == Some((n, 10))
  {
    hide Power, BigEndian, ValueOf;
    var s := [first] + LengthField(n, maskBit) + rest;
    Powers();
    ValueOfBigEndian(n, 8);
    var bytes := BigEndian(n, 8);
    assert [first] + ([127 + maskBit] + bytes) == [first, 127 + maskBit] + bytes;
    Header([first, 127 + maskBit], bytes, rest);
    LengthInEight(s);
    hide LengthField, DecodeLength;
  }

  lemma LengthInEight(s: seq<Byte>)
    requires |s| >= 10 && s[1] % 128 == 127
    ensures DecodeLength(s) == Some((ValueOf(s[2..10]), 10))
  {
  }

  lemma TwoByteLength(first: Byte, n: nat, maskBit: Byte, rest: seq<Byte>)
    requires (maskBit == 0 || maskBit == 128) && 125 < n <= 65535
    ensures var s := [first] + LengthField(n, maskBit) + rest;
      |s| >= 4 && s[0] == first && s[1] == 126 + maskBit && DecodeLength(s) == Some((n, 4))
  {
    hide Power, BigEndian, ValueOf;
    var s := [first] + LengthField(n, maskBit) + rest;
    Powers();
    ValueOfBigEndian(n, 2);
    Header([first, 126 + maskBit], BigEndian(n, 2), rest);
    assert s == [first, 126 + maskBit] + BigEndian(n, 2) + rest;
  }

  lemma Header(a: seq<Byte>, b: seq<Byte>, c: seq<Byte>)
    ensures (a + b + c)[|a|..|a| + |b|] == b
  {
  }

  /** A frame is decoded to its payload, whatever its key is and whatever follows it. */
  lemma FrameComesBack(first: Byte, payload: seq<Byte>, key: Option<Key>, rest: seq<Byte>)
    requires |payload| < TWO_TO_64
    ensures Decode(Frame(first, payload, key) + rest) == Complete(payload, first % 16, rest)
  {
    var maskBit := if key.Some? then 128 else 0;
    var field := LengthField(|payload|, maskBit);
    var s := Frame(first, payload, key) + rest;
    var body := if key.Some? then key.value + Masked(payload, key.value) else payload;
    var header := [first] + field;
    assert s == header + (body + rest) by { Associative(header, body, rest); }
    LengthComesBack(first, |payload|, maskBit, body + rest);
    BodyComesBack(first % 16, payload, key, rest);
    hide LengthField, DecodeLength, DecodeBody;
    assert s[|header|..] == body + rest;
  }

  lemma BodyComesBack(opcode: Byte, payload: seq<Byte>, key: Option<Key>, rest: seq<Byte>)
    ensures var body := if key.Some? then key.value + Masked(payload, key.value) else payload;
      DecodeBody(opcode, key.Some?, |payload|, body + rest) == Complete(payload, opcode, rest)
  {
    if key.Some? {
      var masked := Masked(payload, key.value);
      MaskedTwice(payload, key.value);
      hide Masked;
      Associative(key.value, masked, rest);
      Prefix(key.value, masked + rest);
      Prefix(masked, rest);
    } else {
      Prefix(payload, rest);
    }
  }

  lemma Prefix(a: seq<Byte>, b: seq<Byte>)
    ensures (a + b)[..|a|] == a && (a + b)[|a|..] == b
  {
  }

  // ----- The program -------------------------------------------------------------------------------

  /** Writes the first byte and the length. */
  method WriteHeader(stream: Sink<Byte>, length: nat, maskBit: Byte)
    requires maskBit == 0 || maskBit == 128
    modifies stream
    ensures stream.written == old(stream.written) + [FIN_TEXT] + LengthField(length, maskBit)
  {
    FieldParts(stream.written, length, maskBit);
    hide LengthField, BigEndian;
    if length <= 125 {
      stream.Write([FIN_TEXT, length + maskBit]);
    } else if length <= 65535 {
      stream.Write([FIN_TEXT, 126 + maskBit]);
      TwoBytes(length);
      stream.Write([length / 256 % 256, length % 256]);
    } else {
      stream.Write([FIN_TEXT, 127 + maskBit]);
      var ext := EightBytes(length);
      stream.Write(ext);
    }
  }

  /** The first byte goes with the first byte of the length. */
  lemma FieldParts(written: seq<Byte>, n: nat, maskBit: Byte)
    requires maskBit == 0 || maskBit == 128
    ensures n <= 125 ==> written + [FIN_TEXT, n + maskBit] == written + [FIN_TEXT] + LengthField(n, maskBit)
    ensures 125 < n <= 65535 ==>
      written + [FIN_TEXT, 126 + maskBit] + BigEndian(n, 2) == written + [FIN_TEXT] + LengthField(n, maskBit)
    ensures 65535 < n ==>
      written + [FIN_TEXT, 127 + maskBit] + BigEndian(n, 8) == written + [FIN_TEXT] + LengthField(n, maskBit)
  {
    hide BigEndian;
  }

  /** Writes a text frame; its masking key, if it has one, is zero. */
  method Write(stream: Sink<Byte>, input: seq<Byte>, mask: bool)
    requires |input| < TWO_TO_64
    modifies stream
    ensures stream.written == old(stream.written) + Frame(FIN_TEXT, input, if mask then Some(NO_KEY) else None)
  {
    hide Masked, LengthField;
    WriteHeader(stream, |input|, if mask then 128 else 0);
    if mask {
      var mkey := NO_KEY;
      stream.Write(mkey);
      var masked := ApplyMask(input, mkey);
      stream.Write(masked);
    } else {
      stream.Write(input);
    }
  }

  lemma TwoBytes(n: nat)
    ensures BigEndian(n, 2) == [n / 256 % 256, n % 256]
  {
    assert BigEndian(n / 256, 1) == [n / 256 % 256] by { assert BigEndian(n / 256 / 256, 0) == []; }
  }

  /** The eight bytes of a length, by shifts. */
  method EightBytes(length: nat) returns (ext: seq<Byte>)
    ensures ext == BigEndian(length, 8)
  {
    ext := [];
    var rest := length;
    var i := 0;
    while i < 8
      invariant i <= 8 && BigEndian(length, 8) == BigEndian(rest, 8 - i) + ext
    {
      ext := [rest % 256] + ext;
      rest := rest / 256;
      i := i + 1;
    }
  }

  /** Applies a key byte by byte. */
  method ApplyMask(payload: seq<Byte>, key: Key) returns (masked: seq<Byte>)
    ensures masked == Masked(payload, key)
  {
    masked := [];
    for i := 0 to |payload|
      invariant masked == Masked(payload, key)[..i]
    {
      masked := masked + [Xor(payload[i], key[i % 4])];
    }
  }

  /** The length of 64 bits, into which the bytes are shifted from the right; the 127 that announced it
      is shifted out at the left. */
  method ShiftIn(ext: seq<Byte>) returns (length: nat)
    requires |ext| == 8
    ensures length == ValueOf(ext)
  {
    length := 127;
    ghost var shifted := 127;
    assert ext[..0] == [];
    for i := 0 to 8
      invariant shifted == 127 * Power(i) && length == (shifted + ValueOf(ext[..i])) % TWO_TO_64
    {
      ShiftStep(shifted + ValueOf(ext[..i]), ext[i]);
      assert ext[..i + 1][..i] == ext[..i];
      length := length * 256 % TWO_TO_64 + ext[i];
      shifted := shifted * 256;
    }
    assert ext[..8] == ext;
    Powers();
    ValueInRange(ext);
    ShiftedOut(ValueOf(ext));
  }

  lemma ShiftStep(n: nat, b: Byte)
    ensures n % TWO_TO_64 * 256 % TWO_TO_64 + b == (n * 256 + b) % TWO_TO_64
  {
    var q, r := n / TWO_TO_64, n % TWO_TO_64;
    var high, low := r / 0x100_0000_0000_0000, r % 0x100_0000_0000_0000;
    assert r * 256 == high * TWO_TO_64 + low * 256;
    Remainder(high, low * 256);
    assert n * 256 + b == (q * 256 + high) * TWO_TO_64 + (low * 256 + b);
    Remainder(q * 256 + high, low * 256 + b);
  }

  lemma Remainder(q: nat, r: nat)
    requires r < TWO_TO_64
    ensures (q * TWO_TO_64 + r) % TWO_TO_64 == r
  {
  }

  lemma ShiftedOut(n: nat)
    requires n < TWO_TO_64
    ensures (127 * TWO_TO_64 + n) % TWO_TO_64 == n
  {
  }

  lemma {:induction false} ValueInRange(bytes: seq<Byte>)
    ensures ValueOf(bytes) < Power(|bytes|)
  {
    if bytes != [] { ValueInRange(bytes[..|bytes| - 1]); }
  }

  /** What a read can still get of a stream. */
  ghost function Ahead(stream: Source<Byte>): seq<Byte>
    reads stream
    requires stream.Valid()
  {
    if stream.good then stream.Rest() else []
  }

  /** Reads into a buffer; those bytes that are not read stay as they are. */
  method ReadInto(stream: Source<Byte>, buffer: seq<Byte>) returns (filled: seq<Byte>, ghost made: seq<Byte>)
    requires stream.Valid()
    modifies stream
    ensures stream.Valid() && |filled| == |buffer|
    ensures |made| <= |buffer| && made == buffer[|buffer| - |made|..]
    ensures filled + Ahead(stream) == old(Ahead(stream)) + made
    ensures stream.good ==> old(stream.good) && made == []
    ensures old(stream.good) && !stream.good ==> made != [] && stream.Rest() == []
    ensures !old(stream.good) ==> stream.pos == old(stream.pos)
  {
    var got := stream.Read(|buffer|);
    filled := got + buffer[|got|..];
    made := buffer[|got|..];
  }

  /** Reads the length if it is in one of the longer forms.  What is not read of the longest one is not
      set before. */
  method ReadLength(stream: Source<Byte>, short: nat)
    returns (length: nat, ghost ext: seq<Byte>, ghost made: seq<Byte>)
    requires stream.Valid() && short < 128
    modifies stream
    ensures stream.Valid()
    ensures ext + Ahead(stream) == old(Ahead(stream)) + made
    ensures stream.good ==> old(stream.good) && made == []
    ensures old(stream.good) && !stream.good ==> made != [] && stream.Rest() == []
    ensures !old(stream.good) ==> stream.pos == old(stream.pos)
    ensures |ext| == ExtendedSize(short) && length == (if |ext| == 0 then short else ValueOf(ext))
    ensures short != 127 ==> AllZero(made)
  {
    length := short;
    ext, made := [], [];
    if length == 126 {
      var bytes: seq<Byte> := [0, 0];
      bytes, made := ReadInto(stream, bytes);
      TwoByteValue(bytes);
      length := (bytes[0] as int) * 256 + bytes[1];
      ext := bytes;
    } else if length == 127 {
      assert |Zeros(8)| == 8;
      var bytes: seq<Byte> :| |bytes| == 8;
      bytes, made := ReadInto(stream, bytes);
      length := ShiftIn(bytes);
      ext := bytes;
    }
  }

  /** The bytes of the length beyond the second one of the header. */
  function ExtendedSize(short: nat): nat {
    if short == 126 then 2 else if short == 127 then 8 else 0
  }

  /** The parts of a frame, put together, decode to what they are. */
  lemma PartsMakeFrame(header: seq<Byte>, ext: seq<Byte>, key: seq<Byte>, raw: seq<Byte>, rest: seq<Byte>)
    requires |header| == 2 && |ext| == ExtendedSize(header[1] % 128)
    requires |key| == if header[1] >= 128 then 4 else 0
    requires |raw| == if |ext| == 0 then header[1] % 128 else ValueOf(ext)
    ensures Decode(header + (ext + (key + (raw + rest)))) ==
      Complete(if header[1] >= 128 then Masked(raw, key) else raw, header[0] % 16, rest)
  {
    var s := header + (ext + (key + (raw + rest)));
    TwoParts(header, ext, key + (raw + rest));
    Prefix(key, raw + rest);
    Prefix(raw, rest);
    hide ValueOf, Masked;
    assert DecodeLength(s) == Some((|raw|, 2 + |ext|));
    hide DecodeLength, ExtendedSize;
    BodyOfParts(header[0] % 16, header[1] >= 128, key, raw, rest);
  }

  lemma TwoParts(a: seq<Byte>, b: seq<Byte>, c: seq<Byte>)
    ensures var s := a + (b + c); s[..|a|] == a && s[|a|..|a| + |b|] == b && s[|a| + |b|..] == c
  {
  }

  lemma BodyOfParts(opcode: Byte, mask: bool, key: seq<Byte>, raw: seq<Byte>, rest: seq<Byte>)
    requires |key| == if mask then 4 else 0
    ensures DecodeBody(opcode, mask, |raw|, key + (raw + rest)) ==
      Complete(if mask then Masked(raw, key) else raw, opcode, rest)
  {
    hide Masked;
    Prefix(key, raw + rest);
    Prefix(raw, rest);
    assert !mask ==> key + (raw + rest) == raw + rest;
  }

  /** What follows a frame does not matter. */
  lemma MoreFollows(s: seq<Byte>, t: seq<Byte>)
    requires Decode(s).Complete?
    ensures Decode(s + t) == Decode(s).(rest := Decode(s).rest + t)
  {
    var (length, at) := DecodeLength(s).value;
    LengthFollows(s, t);
    hide DecodeLength, ValueOf, DecodeBody;
    BodyFollows(s[0] % 16, s[1] >= 128, length, s[at..], t);
  }

  lemma LengthFollows(s: seq<Byte>, t: seq<Byte>)
    requires |s| >= 2 && DecodeLength(s).Some?
    ensures DecodeLength(s + t) == DecodeLength(s)
    ensures var at := DecodeLength(s).value.1; at <= |s| && (s + t)[at..] == s[at..] + t
  {
    if |s| >= 4 { assert (s + t)[2..4] == s[2..4]; }
    if |s| >= 10 { assert (s + t)[2..10] == s[2..10]; }
  }

  lemma BodyFollows(opcode: Byte, mask: bool, length: nat, body: seq<Byte>, t: seq<Byte>)
    requires DecodeBody(opcode, mask, length, body).Complete?
    ensures var d := DecodeBody(opcode, mask, length, body);
      DecodeBody(opcode, mask, length, body + t) == d.(rest := d.rest + t)
  {
    hide Masked;
    if mask {
      assert (body + t)[..4] == body[..4] && (body + t)[4..] == body[4..] + t;
      assert (body[4..] + t)[..length] == body[4..][..length];
    } else {
      assert (body + t)[..length] == body[..length];
    }
  }

  /** Nothing but zeros is made up for what a stream lacks of a frame, except for what it lacks of a length in
      eight bytes. */
  predicate MadeUp(s: seq<Byte>, missing: seq<Byte>) {
    forall i :: 0 <= i < |missing| && missing[i] != 0 ==> |s| >= 2 && s[1] % 128 == 127 && |s| + i < 10
  }

  /** Reads a frame.  If the stream begins with less than a whole frame, all of it is read, and the frame is
      that which it begins with once the bytes that are `missing` have been made up. */
  method Read(stream: Source<Byte>) returns (raw: seq<Byte>, opcode: Byte, ghost missing: seq<Byte>)
    requires stream.Valid()
    modifies stream
    ensures stream.Valid()
    ensures missing == [] <==> Decode(old(Ahead(stream))).Complete?
    ensures stream.good <==> missing == []
    ensures MadeUp(old(Ahead(stream)), missing)
    ensures Decode(old(Ahead(stream)) + missing) == Complete(raw, opcode, Ahead(stream))
    ensures if old(stream.good) then Ahead(stream) == stream.Rest() else stream.pos == old(stream.pos)
  {
    hide Decode, DecodeLength, DecodeBody, ValueOf, Masked, MadeUp, ExtendedSize;
    ghost var s := Ahead(stream);
    ghost var m0, m1, m2: seq<Byte>, ext: seq<Byte>, key: seq<Byte>, sent: seq<Byte>;
    var header: seq<Byte> := [0, 0];
    header, m0 := ReadInto(stream, header);
    ghost var a1 := Ahead(stream);
    opcode := header[0] % 16;
    var mask := header[1] >= 128;
    var length;
    length, ext, m1 := ReadLength(stream, header[1] % 128);
    ghost var a2 := Ahead(stream);
    raw, key, sent, m2 := ReadPayload(stream, mask, length);
    missing := m0 + (m1 + m2);
    OneTurn(ext, a2, m2, a1, m1);
    OneTurn(header, a1, m1 + m2, s, m0);
    OnlyZeros(s, header, m0, a1, ext, m1, a2, m2);
    PartsMakeFrame(header, ext, key, sent, Ahead(stream));
    MissingOrNot(s, missing, raw, opcode, Ahead(stream));
  }

  predicate AllZero(bytes: seq<Byte>) {
    forall i :: 0 <= i < |bytes| ==> bytes[i] == 0
  }

  lemma SumIsZero(a: seq<Byte>, b: seq<Byte>)
    requires AllZero(a) && AllZero(b)
    ensures AllZero(a + b)
  {
  }

  /** Reads the masking key, if there is one, and the payload, which has been `sent` as it is before unmasking. */
  method ReadPayload(stream: Source<Byte>, mask: bool, length: nat)
    returns (raw: seq<Byte>, ghost key: seq<Byte>, ghost sent: seq<Byte>, ghost made: seq<Byte>)
    requires stream.Valid()
    modifies stream
    ensures stream.Valid()
    ensures key + (sent + Ahead(stream)) == old(Ahead(stream)) + made
    ensures stream.good ==> old(stream.good) && made == []
    ensures old(stream.good) && !stream.good ==> made != [] && stream.Rest() == []
    ensures !old(stream.good) ==> stream.pos == old(stream.pos)
    ensures |key| == (if mask then 4 else 0) && |sent| == length && AllZero(made)
    ensures raw == if mask then Masked(sent, key) else sent
  {
    var mkey: Key := NO_KEY;
    ghost var a, m, m': seq<Byte> := Ahead(stream), [], [];
    key := [];
    hide Masked;
    if mask { mkey, m := ReadZeros(stream, 4); key := mkey; }
    ghost var b := Ahead(stream);
    raw := Zeros(length);
    if length > 0 { raw, m' := ReadZeros(stream, length); }
    hide AllZero, Ahead;
    OneTurn(key, b, m', a, m);
    SumIsZero(m, m');
    sent, made := raw, m + m';
    if mask && length > 0 { raw := ApplyMask(raw, mkey); }
  }

  /** Reads into a buffer of `n` zeros. */
  method ReadZeros(stream: Source<Byte>, n: nat) returns (filled: seq<Byte>, ghost made: seq<Byte>)
    requires stream.Valid()
    modifies stream
    ensures stream.Valid() && |filled| == n && AllZero(made)
    ensures filled + Ahead(stream) == old(Ahead(stream)) + made
    ensures stream.good ==> old(stream.good) && made == []
    ensures old(stream.good) && !stream.good ==> made != [] && stream.Rest() == []
    ensures !old(stream.good) ==> stream.pos == old(stream.pos)
  {
    filled, made := ReadInto(stream, Zeros(n));
  }

  lemma OneTurn(taken: seq<Byte>, left: seq<Byte>, more: seq<Byte>, was: seq<Byte>, made: seq<Byte>)
    requires taken + left == was + made
    ensures taken + (left + more) == was + (made + more)
  {
    Associative(taken, left, more);
    Associative(was, made, more);
  }

  lemma OnlyZeros(s: seq<Byte>, header: seq<Byte>, m0: seq<Byte>, a1: seq<Byte>, ext: seq<Byte>, m1: seq<Byte>,
          a2: seq<Byte>, m2: seq<Byte>)
    requires |header| == 2 && |ext| == ExtendedSize(header[1] % 128)
    requires header + a1 == s + m0 && ext + a2 == a1 + m1
    requires (m0 != [] ==> a1 == []) && (m1 != [] ==> a2 == [])
    requires AllZero(m0) && AllZero(m2)
    requires header[1] % 128 != 127 ==> AllZero(m1)
    ensures MadeUp(s, m0 + (m1 + m2))
  {
    if header[1] % 128 == 127 {
      assert (header + a1)[1] == header[1] == (s + m0)[1];
      assert |s| >= 2 && s[1] == header[1];
      assert |header + a1| == |s + m0| && |ext + a2| == |a1 + m1|;
    }
  }

  lemma MissingOrNot(s: seq<Byte>, missing: seq<Byte>, raw: seq<Byte>, opcode: Byte, rest: seq<Byte>)
    requires Decode(s + missing) == Complete(raw, opcode, rest) && (missing != [] ==> rest == [])
    ensures missing == [] <==> Decode(s).Complete?
  {
    if missing == [] {
      assert s + missing == s;
    } else if Decode(s).Complete? {
      MoreFollows(s, missing);
    }
  }

  lemma TwoByteValue(ext: seq<Byte>)
    requires |ext| == 2
    ensures ValueOf(ext) == (ext[0] as int) * 256 + ext[1]
  {
    assert ext[..1][..0] == [] && ValueOf(ext[..1]) == ext[0];
  }

  // ----- Conversations ---------------------------------------------------------------------------

  /** A message, and whether it is masked when it is written. */
  datatype Message = Message(text: seq<Byte>, mask: bool)

  function FrameOf(m: Message): seq<Byte> {
    Frame(FIN_TEXT, m.text, if m.mask then Some(NO_KEY) else None)
  }

  function FramesOf(messages: seq<Message>): seq<Byte> {
    if messages == [] then [] else FrameOf(messages[0]) + FramesOf(messages[1..])
  }

  lemma {:induction false} FrameAppended(messages: seq<Message>, m: Message)
    ensures FramesOf(messages + [m]) == FramesOf(messages) + FrameOf(m)
  {
    hide FrameOf;
    if messages == [] {
      assert [] + [m] == [m] && [m][1..] == [];
      assert FramesOf([m]) == FrameOf(m) + FramesOf([]);
    } else {
      assert (messages + [m])[1..] == messages[1..] + [m];
      FrameAppended(messages[1..], m);
    }
  }

  method WriteMessage(stream: Sink<Byte>, m: Message)
    requires |m.text| < TWO_TO_64
    modifies stream
    ensures stream.written == old(stream.written) + FrameOf(m)
  {
    hide Frame;
    Write(stream, m.text, m.mask);
  }

  /** Writes messages one after the other. */
  method WriteAll(stream: Sink<Byte>, messages: seq<Message>)
    requires forall i :: 0 <= i < |messages| ==> |messages[i].text| < TWO_TO_64
    modifies stream
    ensures stream.written == old(stream.written) + FramesOf(messages)
  {
    TakeEnds(messages);
    assert FramesOf([]) == [];
    hide FrameOf, FramesOf;
    ghost var before := stream.written;
    for i := 0 to |messages|
      invariant stream.written == before + FramesOf(messages[..i])
    {
      WriteMessage(stream, messages[i]);
      FrameAppended(messages[..i], messages[i]);
      TakeMore(messages, i);
      Associative(before, FramesOf(messages[..i]), FrameOf(messages[i]));
    }
  }

  method ReadMessage(stream: Source<Byte>, ghost m: Message, ghost others: seq<Byte>)
    returns (text: seq<Byte>, opcode: Byte)
    requires stream.Valid() && stream.good && stream.Rest() == FrameOf(m) + others && |m.text| < TWO_TO_64
    modifies stream
    ensures stream.Valid() && stream.good && stream.Rest() == others && text == m.text && opcode == 1
  {
    FrameComesBack(FIN_TEXT, m.text, if m.mask then Some(NO_KEY) else None, others);
    hide Frame, Decode, MadeUp;
    ghost var was, missing := stream.Rest(), [];
    text, opcode, missing := Read(stream);
    assert was + missing == was;
  }

  /** Reads as many frames. */
  method ReadAll(stream: Source<Byte>, ghost messages: seq<Message>, ghost rest: seq<Byte>, n: nat)
    returns (texts: seq<seq<Byte>>, opcodes: seq<Byte>)
    requires stream.Valid() && stream.good && stream.Rest() == FramesOf(messages) + rest && n == |messages|
    requires forall i :: 0 <= i < |messages| ==> |messages[i].text| < TWO_TO_64
    modifies stream
    ensures stream.Valid() && stream.good && stream.Rest() == rest
    ensures |texts| == |opcodes| == n
    ensures forall i :: 0 <= i < n ==> texts[i] == messages[i].text && opcodes[i] == 1
  {
    texts, opcodes := [], [];
    hide FrameOf;
    assert messages[0..] == messages;
    for k := 0 to n
      invariant stream.Valid() && stream.good && stream.Rest() == FramesOf(messages[k..]) + rest
      invariant |texts| == |opcodes| == k
      invariant forall i :: 0 <= i < k ==> texts[i] == messages[i].text && opcodes[i] == 1
    {
      ghost var m := messages[k];
      ghost var others := FramesOf(messages[k + 1..]) + rest;
      assert messages[k..][1..] == messages[k + 1..];
      assert stream.Rest() == FrameOf(m) + others;
      var text, opcode := ReadMessage(stream, m, others);
      texts, opcodes := texts + [text], opcodes + [opcode];
    }
  }

  /** What has been written is read again, in order and as text, and what follows is left. */
  method Converse(messages: seq<Message>, after: seq<Byte>) returns (texts: seq<seq<Byte>>, opcodes: seq<Byte>,
          rest: seq<Byte>)
    requires forall i :: 0 <= i < |messages| ==> |messages[i].text| < TWO_TO_64
    ensures |texts| == |opcodes| == |messages|
    ensures forall i :: 0 <= i < |messages| ==> texts[i] == messages[i].text && opcodes[i] == 1
    ensures rest == after
  {
    var written := WrittenThenMore(messages, after);
    hide FramesOf;
    var source := new Source(written);
    texts, opcodes := ReadAll(source, messages, after, |messages|);
    rest := source.data[source.pos..];
  }

  method WrittenThenMore(messages: seq<Message>, after: seq<Byte>) returns (written: seq<Byte>)
    requires forall i :: 0 <= i < |messages| ==> |messages[i].text| < TWO_TO_64
    ensures written == FramesOf(messages) + after
  {
    hide FramesOf;
    var sink := new Sink<Byte>();
    WriteAll(sink, messages);
    sink.Write(after);
    written := sink.written;
    assert [] + FramesOf(messages) == FramesOf(messages);
  }
}
