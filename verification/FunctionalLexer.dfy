/** The scanner: a refillable buffer over a stream, three DFAs, and the loop that drives them. */
module FunctionalLexer {
  import opened Grammar
  import opened Option
  import opened Characters
  import opened Tokenizer
  import opened Sequences
  import T = ParserTables

  const INITIAL_BUFFER_SIZE: nat := 4096

  datatype Condition = INITIAL | Quoted | Number

  /** A stream over a finite byte string; `bad` is set by a `Putback` that the stream refuses. */
  class InputStream {
    const data: string
    var pos: nat
    var bad: bool

    ghost predicate Valid()
      reads this
    {
      pos <= |data|
    }

    constructor (data: string)
      ensures Valid() && this.data == data && pos == 0 && !bad
    {
      this.data := data;
      pos := 0;
      bad := false;
    }

    /** Stores up to `n` bytes at `buffer[at..]` and says how many there were. */
    method Read(buffer: array<char>, at: nat, n: nat) returns (got: nat)
      requires Valid() && at + n <= buffer.Length
      modifies this`pos, buffer
      ensures Valid() && pos == old(pos) + got
      ensures got == if n <= |data| - old(pos) then n else |data| - old(pos)
      ensures forall i :: 0 <= i < buffer.Length && !(at <= i < at + got) ==> buffer[i] == old(buffer[i])
      ensures forall i :: at <= i < at + got ==> buffer[i] == data[old(pos) + (i - at)]
    {
      got := if n <= |data| - pos then n else |data| - pos;
      forall i | 0 <= i < got {
        buffer[at + i] := data[pos + i];
      }
      pos := pos + got;
    }

    /** Only the byte that was read last can be put back. */
    method Putback(c: char)
      requires Valid()
      modifies this
      ensures Valid()
      ensures if old(pos) > 0 && data[old(pos) - 1] == c
              then pos == old(pos) - 1 && bad == old(bad)
              else pos == old(pos) && bad
    {
      if pos > 0 && data[pos - 1] == c {
        pos := pos - 1;
      } else {
        bad := true;
      }
    }
  }

  function Min(a: int, b: int): int {
    if a < b then a else b
  }

  function KindOf(t: Option<Token>): int {
    match t
    case None => T.YYEOF
    case Some(StringTok(_)) => T.STRING
    case Some(NumberTok(_)) => T.NUMBER
    case Some(VariableTok(_)) => T.VARIABLE
    case Some(LParen) => T.LPAREN
    case Some(RParen) => T.RPAREN
    case Some(Comma) => T.COMMA
  }

  /** What the DFA of the initial condition does on `s`: the token it returns, if any, the text it
      captures with it, what it leaves, and the condition and `more` flag it sets. */
  predicate InitialMove(s: string, token: int, text: string, rest: string, condition: Condition, more: bool) {
    if s == "" then token == 0 && rest == "" && condition == INITIAL && !more
    else if IsSkipped(s[0]) then token == 0 && rest == s[1..] && condition == INITIAL && !more
    else if s[0] == '"' then token == 0 && rest == s[1..] && condition == Quoted && !more
    else if IsDigit(s[0]) then token == 0 && text == [s[0]] && rest == s[1..] && condition == Number && more
    else
      && condition == INITIAL && !more
      && (if s[0] == '(' then token == T.LPAREN && text == "(" && rest == s[1..]
          else if s[0] == ')' then token == T.RPAREN && text == ")" && rest == s[1..]
          else if s[0] == ',' then token == T.COMMA && text == "," && rest == s[1..]
          else token == T.VARIABLE && text == s[..Span(IsName, s)] && rest == s[Span(IsName, s)..])
  }

  /** The same for the DFA inside a string literal whose characters so far are `prefix`. */
  predicate QuotedMove(prefix: string, s: string, token: int, text: string, rest: string, condition: Condition,
          more: bool) {
    var pending := if more then text else "";
    if s == "" then token == 0 && rest == "" && condition == Quoted && pending == prefix
    else if s[0] == NUL then token == 0 && rest == s[1..] && condition == Quoted && pending == prefix
    else if s[0] == '"' then token == T.STRING && text == prefix && rest == s[1..] && condition == INITIAL && !more
    else
      && token == 0 && rest == s[Span(IsQuotable, s)..] && condition == Quoted
      && pending == prefix + s[..Span(IsQuotable, s)]
  }

  /** A run is its first character and the run behind it. */
  lemma RunOf(p: char -> bool, s: string)
    requires s != "" && p(s[0])
    ensures [s[0]] + s[1..][..Span(p, s[1..])] == s[..Span(p, s)] && s[1..][Span(p, s[1..])..] == s[Span(p, s)..]
  {
    var n := Span(p, s[1..]);
    assert Span(p, s) == n + 1;
    hide Span;
    HeadAndRun(s, n);
  }

  /** The first `n` characters of the run that `s` begins with have been consumed. */
  ghost predicate Munched(p: char -> bool, s: string, before: string, n: nat, text: string, rest: string) {
    n <= Span(p, s) && text == before + s[..n] && rest == s[n..]
  }

  lemma NothingMunched(p: char -> bool, s: string, before: string)
    ensures Munched(p, s, before, 0, before, s)
  {
    hide Span;
    assert before + s[..0] == before && s[0..] == s;
  }

  lemma MunchedMore(p: char -> bool, s: string, before: string, n: nat, text: string, rest: string)
    requires Munched(p, s, before, n, text, rest) && rest != "" && p(rest[0])
    ensures Munched(p, s, before, n + 1, text + [rest[0]], rest[1..])
    ensures n + 1 <= |s|
  {
    hide Span;
    TakeMore(s, n);
    DropDrop(s, n, 1);
    Associative(before, s[..n], [s[n]]);
  }

  lemma MunchedAll(p: char -> bool, s: string, before: string, n: nat, text: string, rest: string)
    requires Munched(p, s, before, n, text, rest) && (rest == "" || !p(rest[0]))
    ensures n == Span(p, s) && text == before + s[..Span(p, s)] && rest == s[Span(p, s)..]
  {
    hide Span;
  }

  /** The bytes from `start` on are the last ones of `data`, up to `dataLimit`, and then padding. */
  predicate LaidOut(bytes: seq<char>, start: nat, dataLimit: nat, limit: nat, data: string) {
    && start <= dataLimit <= limit <= |bytes| && dataLimit - start <= |data|
    && (forall i :: start <= i < dataLimit ==> bytes[i] == data[|data| - (dataLimit - i)])
    && (forall i :: dataLimit <= i < limit ==> bytes[i] == NUL)
  }

  /** The bytes between `start` and `limit` are also those that `bytes` begins with. */
  predicate Repeats(bytes: seq<char>, start: nat, limit: nat) {
    start <= limit <= |bytes| && bytes[..limit - start] == bytes[start..limit]
  }

  /** Moving the marks to the start, but not the bytes, is right exactly if the same bytes are there. */
  lemma MarksMoved(bytes: seq<char>, grown: seq<char>, shift: nat, dataLimit: nat, limit: nat, data: string)
    requires LaidOut(bytes, shift, dataLimit, limit, data) && |bytes| <= |grown| && grown[..|bytes|] == bytes
    ensures LaidOut(grown, 0, dataLimit - shift, limit - shift, data) <==> Repeats(bytes, shift, limit)
  {
    var head, tail := bytes[..limit - shift], bytes[shift..limit];
    forall i | 0 <= i < limit - shift ensures grown[i] == head[i] && bytes[shift + i] == tail[i] {
      assert grown[..|bytes|][i] == bytes[i];
    }
  }

  /** At the end, or at a NUL, nothing is added to the literal. */
  lemma NulMoves(prefix: string, s: string, text: string, more: bool)
    requires (s == "" || s[0] == NUL) && prefix == (if more then text else "")
    ensures QuotedMove(prefix, s, 0, text, if s == "" then "" else s[1..], Quoted, more)
  {
  }

  /** A quote ends the literal, and other characters are added to it as long as they go. */
  lemma QuotedMoves(prefix: string, s: string)
    ensures s != "" && s[0] == '"' ==> QuotedMove(prefix, s, T.STRING, prefix, s[1..], INITIAL, false)
    ensures s != "" && IsQuotable(s[0]) ==>
      QuotedMove(prefix, s, 0, prefix + s[..Span(IsQuotable, s)], s[Span(IsQuotable, s)..], Quoted, true)
  {
    hide Span;
  }

  class Lexer {
    var input: InputStream
    var buffer: array<char>
    var cursor: nat
    var limit: nat
    var tokenStart: nat
    var dataLimit: nat
    var condition: Condition
    var matched: string
    var more: bool
    var eof: bool

    /** The text between the start of the token and the cursor, and what has not been consumed. */
    ghost var text: string
    ghost var rest: string

    /** Where a place in the buffer is in the stream; the padding is all at the end. */
    ghost function At(place: nat): int
      reads `dataLimit, `input, input
    {
      input.pos - (dataLimit - Min(place, dataLimit))
    }

    /** Position in the stream of the first byte that has not been consumed. */
    ghost function Position(): int
      reads `cursor, `dataLimit, `input, input
    {
      At(cursor)
    }

    /** The pointers are in order and inside the buffer, everything in it that is still of interest
        is either from the stream or padding, and there is padding only at the end of the stream. */
    ghost predicate Layout()
      reads `cursor, `limit, `tokenStart, `dataLimit, `eof, `input, `buffer, input, buffer
    {
      && input.Valid()
      && 0 < buffer.Length
      && tokenStart <= cursor <= limit <= buffer.Length
      && dataLimit <= limit
      && 0 <= At(tokenStart)
      && (forall i :: Min(tokenStart, dataLimit) <= i < dataLimit ==> buffer[i] == input.data[At(i)])
      && (forall i :: dataLimit <= i < limit ==> buffer[i] == NUL)
      && (!eof ==> dataLimit == limit)
      && (eof ==> input.pos == |input.data|)
    }

    /** The ghost texts are the parts of the stream that they are said to be. */
    ghost predicate Valid()
      reads `cursor, `limit, `tokenStart, `dataLimit, `eof, `text, `rest, `input, `buffer, input, buffer
    {
      && Layout()
      && rest == input.data[Position()..]
      && (cursor <= dataLimit ==> text == input.data[At(tokenStart)..Position()])
    }

    constructor (input: InputStream)
      requires input.Valid()
      ensures Valid() && fresh(buffer) && this.input == input && Position() == input.pos
      ensures condition == INITIAL && !more && !eof && cursor == limit == dataLimit
    {
      this.input := input;
      buffer := new char[INITIAL_BUFFER_SIZE];
      cursor, limit, tokenStart, dataLimit := 0, 0, 0, 0;
      condition := INITIAL;
      matched := "";
      more, eof := false, false;
      text, rest := "", input.data[input.pos..];
    }

    /** Makes `need` bytes available at the cursor, unless the stream ends before that. */
    method Fill(need: nat) returns (ok: bool)
      requires Layout()
      modifies this`buffer, this`cursor, this`limit, this`tokenStart, this`dataLimit, this`eof, buffer, input`pos
      ensures Layout() && (buffer == old(buffer) || fresh(buffer))
      ensures Position() == old(Position()) && At(tokenStart) == old(At(tokenStart))
      ensures cursor - tokenStart == old(cursor - tokenStart)
      ensures ok <==> need <= limit - cursor
      ensures !ok ==> eof
      ensures eof && !old(eof) ==> !ok && tokenStart == 0
      ensures old(eof) ==> eof && limit == old(limit) && cursor == old(cursor) && tokenStart == old(tokenStart)
      ensures old(eof) ==> dataLimit == old(dataLimit) && buffer == old(buffer) && buffer[..] == old(buffer[..])
      ensures !old(eof) ==> dataLimit == limit
      ensures limit - cursor <= if old(limit - cursor) < need then need else old(limit - cursor)
    {
      while limit - cursor < need
        invariant Layout() && (buffer == old(buffer) || fresh(buffer))
        invariant Position() == old(Position()) && At(tokenStart) == old(At(tokenStart))
        invariant cursor - tokenStart == old(cursor - tokenStart)
        invariant eof == old(eof)
        invariant eof ==> limit == old(limit) && cursor == old(cursor) && tokenStart == old(tokenStart)
        invariant eof ==> dataLimit == old(dataLimit) && buffer == old(buffer) && buffer[..] == old(buffer[..])
        invariant limit - cursor <= if old(limit - cursor) < need then need else old(limit - cursor)
        decreases |input.data| - input.pos
      {
        if eof { return false; }
        var got := ReadMore(need);
        if got == 0 {
          eof := true;
          return false;
        }
      }
      return true;
    }

    /** One round of `Fill`: discards what precedes the token in flight, makes room for `need` bytes
        beyond the cursor, and asks the stream for those that are missing. */
    method ReadMore(need: nat) returns (got: nat)
      requires Layout() && !eof && limit - cursor < need
      modifies this`buffer, this`cursor, this`limit, this`tokenStart, this`dataLimit, buffer, input`pos
      ensures Layout() && (buffer == old(buffer) || fresh(buffer))
      ensures Position() == old(Position()) && At(tokenStart) == old(At(tokenStart))
      ensures tokenStart == 0 && cursor == old(cursor - tokenStart)
      ensures dataLimit == limit && limit - cursor == old(limit - cursor) + got <= need
      ensures input.pos == old(input.pos) + got
      ensures got == 0 ==> input.pos == |input.data|
    {
      var used := limit - tokenStart;
      if tokenStart > 0 { Shift(); }
      if buffer.Length < used + need { Grow(used + need); }
      got := Receive(need - (limit - cursor));
    }

    /** Appends up to `n` bytes of the stream to the buffered ones. */
    method Receive(n: nat) returns (got: nat)
      requires Layout() && !eof && limit + n <= buffer.Length && n > 0
      modifies this`limit, this`dataLimit, buffer, input`pos
      ensures Layout()
      ensures Position() == old(Position()) && At(tokenStart) == old(At(tokenStart))
      ensures dataLimit == limit == old(limit) + got && got <= n
      ensures input.pos == old(input.pos) + got
      ensures got == 0 ==> input.pos == |input.data|
    {
      got := input.Read(buffer, limit, n);
      limit := limit + got;
      dataLimit := limit;
    }

    /** Moves the token in flight, and what follows it, to the start of the buffer. */
    method Shift()
      requires Layout() && !eof && tokenStart > 0
      modifies this`cursor, this`limit, this`tokenStart, this`dataLimit, buffer
      ensures Layout()
      ensures tokenStart == 0 && cursor == old(cursor - tokenStart)
      ensures limit == dataLimit == old(limit - tokenStart)
      ensures Position() == old(Position()) && At(tokenStart) == old(At(tokenStart))
    {
      var shift := tokenStart;
      ghost var before := buffer[..];
      forall i | 0 <= i < limit - shift {
        buffer[i] := buffer[shift + i];
      }
      assert forall i :: 0 <= i < limit - shift ==> buffer[i] == before[shift + i];
      cursor := cursor - shift;
      limit := limit - shift;
      dataLimit := dataLimit - shift;
      tokenStart := 0;
    }

    /** What is buffered from the token in flight on is also at the start of the buffer. */
    ghost predicate AtStart()
      reads `limit, `tokenStart, `buffer, buffer
    {
      Repeats(buffer[..], tokenStart, limit)
    }

    lemma BytesLaidOut()
      requires input.Valid() && 0 < buffer.Length && tokenStart <= cursor <= limit <= buffer.Length
      requires tokenStart <= dataLimit <= limit
      requires if eof then input.pos == |input.data| else dataLimit == limit
      ensures Layout() <==> LaidOut(buffer[..], tokenStart, dataLimit, limit, input.data[..input.pos])
    {
    }

    /** Makes room for `size` bytes.  The pointers keep their distance from
        the token in flight, which is taken to be at the start of the buffer: no byte is moved. */
    method Grow(size: nat)
      requires Layout() && tokenStart <= dataLimit
      modifies this`buffer, this`cursor, this`limit, this`tokenStart, this`dataLimit
      ensures fresh(buffer) && size <= buffer.Length && old(buffer.Length) <= buffer.Length
      ensures tokenStart == 0 && cursor == old(cursor - tokenStart) && limit == old(limit - tokenStart)
      ensures dataLimit == old(dataLimit - tokenStart)
      ensures Position() == old(Position()) && At(tokenStart) == old(At(tokenStart))
      ensures Layout() <==> old(AtStart())
    {
      ghost var before, shift, dataLimit0, limit0 := buffer[..], tokenStart, dataLimit, limit;
      MarksInOrder();
      hide Layout, LaidOut, Repeats, At, Position;
      Resize(size);
      Rebase();
      Regrown(before, shift, dataLimit0, limit0);
    }

    lemma MarksInOrder()
      requires Layout() && tokenStart <= dataLimit
      ensures 0 < buffer.Length && input.Valid() && tokenStart <= cursor <= limit <= buffer.Length && dataLimit <= limit
      ensures if eof then input.pos == |input.data| else dataLimit == limit
      ensures LaidOut(buffer[..], tokenStart, dataLimit, limit, input.data[..input.pos])
    {
      BytesLaidOut();
    }

    /** The marks have been moved to the start by `shift`, in a buffer that begins with the bytes of before. */
    lemma Regrown(before: seq<char>, shift: nat, dataLimit0: nat, limit0: nat)
      requires input.Valid() && 0 < buffer.Length && tokenStart == 0 && cursor <= limit
      requires shift <= dataLimit0 <= limit0 && dataLimit == dataLimit0 - shift && limit == limit0 - shift
      requires if eof then input.pos == |input.data| else dataLimit == limit
      requires |before| <= buffer.Length && buffer[..][..|before|] == before
      requires LaidOut(before, shift, dataLimit0, limit0, input.data[..input.pos])
      ensures Layout() <==> Repeats(before, shift, limit0)
    {
      BytesLaidOut();
      hide Layout, Repeats;
      MarksMoved(before, buffer[..], shift, dataLimit0, limit0, input.data[..input.pos]);
    }

    /** Puts the pointers to the start of the buffer, as far apart as they are. */
    method Rebase()
      requires tokenStart <= cursor <= limit && tokenStart <= dataLimit
      modifies this`cursor, this`limit, this`tokenStart, this`dataLimit
      ensures tokenStart == 0 && cursor == old(cursor - tokenStart) && limit == old(limit - tokenStart)
      ensures dataLimit == old(dataLimit - tokenStart)
      ensures Position() == old(Position()) && At(tokenStart) == old(At(tokenStart))
    {
      tokenStart, cursor, dataLimit, limit := 0, cursor - tokenStart, dataLimit - tokenStart, limit - tokenStart;
    }

    /** Doubles the buffer until it has room for `size` bytes. */
    method Resize(size: nat)
      requires 0 < buffer.Length
      modifies this`buffer
      ensures fresh(buffer) && size <= buffer.Length && old(buffer.Length) <= buffer.Length
      ensures buffer[..][..old(buffer.Length)] == old(buffer[..])
    {
      var newSize := buffer.Length;
      while newSize < size
        invariant 0 < buffer.Length <= newSize
      {
        newSize := newSize * 2;
      }
      var grown := new char[newSize](i requires 0 <= i < newSize reads this, buffer =>
        if i < buffer.Length then buffer[i] else NUL);
      buffer := grown;
    }

    /** Padding for `need` bytes would be written behind the end of the buffer, or a pointer put before it.
        The former is so if there is room only once the token in flight has been moved to the start, which
        is not done any more when the end is known. */
    ghost predicate OutOfBounds(need: nat)
      reads `cursor, `limit, `tokenStart, `dataLimit, `eof, `buffer
    {
      && eof && limit - cursor < need
      && if cursor - tokenStart + need <= buffer.Length then buffer.Length < cursor + need else dataLimit < tokenStart
    }

    /** The pointers would be put to the start of the buffer, where the token in flight is not. */
    ghost predicate Misplaces(need: nat)
      reads `cursor, `limit, `tokenStart, `eof, `buffer, buffer
    {
      eof && limit - cursor < need && buffer.Length < cursor - tokenStart + need && !AtStart()
    }

    /** Like `Fill`, but at the end of the stream the missing bytes are made up with NULs.  When the end is
        already known, there are two ways in which this goes wrong. */
    method Yyfill(need: nat)
      requires Layout() && !OutOfBounds(need)
      modifies this`buffer, this`cursor, this`limit, this`tokenStart, this`dataLimit, this`eof, buffer, input`pos
      ensures Layout() <==> !old(Misplaces(need))
      ensures buffer == old(buffer) || fresh(buffer)
      ensures Position() == old(Position()) && At(tokenStart) == old(At(tokenStart))
      ensures cursor - tokenStart == old(cursor - tokenStart)
      ensures need <= limit - cursor <= if old(limit - cursor) < need then need else old(limit - cursor)
      ensures !eof ==> dataLimit == limit
      ensures !old(eof) ==> cursor <= dataLimit
      ensures eof && !old(eof) ==> dataLimit < cursor + need
    {
      var ok := Fill(need);
      if !ok { MakeUp(need - (limit - cursor)); }
    }

    /** Makes room for what is missing at the end of the stream, and pads. */
    method MakeUp(shortfall: nat)
      requires Layout() && eof && shortfall > 0 && !OutOfBounds(limit - cursor + shortfall)
      modifies this`buffer, this`cursor, this`limit, this`tokenStart, this`dataLimit, buffer
      ensures Layout() <==> !old(Misplaces(limit - cursor + shortfall))
      ensures buffer == old(buffer) || fresh(buffer)
      ensures limit - cursor == old(limit - cursor) + shortfall && cursor - tokenStart == old(cursor - tokenStart)
      ensures cursor - dataLimit == old(cursor - dataLimit)
      ensures Position() == old(Position()) && At(tokenStart) == old(At(tokenStart))
    {
      var used := limit - tokenStart;
      if buffer.Length < used + shortfall { Grow(used + shortfall); }
      assert tokenStart <= cursor <= limit && dataLimit <= limit && limit + shortfall <= buffer.Length;
      hide Layout, AtStart;
      Pad(shortfall);
    }

    /** Appends `n` bytes of padding to the buffered ones. */
    method Pad(n: nat)
      requires eof && tokenStart <= cursor <= limit && dataLimit <= limit && limit + n <= buffer.Length
      modifies this`limit, buffer
      ensures limit == old(limit) + n && (Layout() <==> old(Layout()))
      ensures Position() == old(Position()) && At(tokenStart) == old(At(tokenStart))
    {
      ghost var before := buffer[..];
      forall i | limit <= i < limit + n {
        buffer[i] := NUL;
      }
      assert forall i :: 0 <= i < limit ==> buffer[i] == before[i];
      limit := limit + n;
    }

    /** Nothing of the input is lost or duplicated: it is what has been consumed, what is buffered
        from the cursor on, and what has not been read. */
    lemma Conserved()
      requires Valid()
      ensures 0 <= Position() <= input.pos
      ensures input.data ==
        input.data[..Position()] + buffer[Min(cursor, dataLimit)..dataLimit] + input.data[input.pos..]
    {
      var ahead := buffer[Min(cursor, dataLimit)..dataLimit];
      assert ahead == input.data[Position()..input.pos] by {
        forall i | 0 <= i < |ahead| ensures ahead[i] == input.data[Position()..input.pos][i] {
          assert ahead[i] == buffer[Min(cursor, dataLimit) + i];
        }
      }
    }

    /** The end of the stream is only known once the cursor has come to it. */
    ghost predicate Paused()
      reads `cursor, `limit, `tokenStart, `dataLimit, `eof, `text, `rest, `input, `buffer, input, buffer
    {
      Valid() && (eof ==> dataLimit <= cursor)
    }

    /** The character at the cursor, or a NUL at the end of the stream. */
    method Peek() returns (ch: char)
      requires Valid() && !eof
      modifies this`buffer, this`cursor, this`limit, this`tokenStart, this`dataLimit, this`eof, buffer, input`pos
      ensures Valid() && (buffer == old(buffer) || fresh(buffer))
      ensures cursor < limit && (tokenStart == cursor <==> old(tokenStart == cursor))
      ensures if eof then dataLimit == cursor && rest == "" && ch == NUL
              else cursor < dataLimit && rest != "" && ch == rest[0]
    {
      if limit <= cursor { Yyfill(1); }
      ch := buffer[cursor];
    }

    /** Consumes the byte at the cursor, or the padding at the end. */
    method Advance()
      requires Valid() && cursor < limit && (eof ==> dataLimit == cursor)
      modifies this`cursor, this`text, this`rest
      ensures Paused() && cursor == old(cursor) + 1
      ensures old(eof) ==> rest == old(rest) == ""
      ensures !eof ==>
        cursor <= dataLimit && old(rest) != "" && text == old(text) + [old(rest)[0]] && rest == old(rest)[1..]
    {
      if !eof {
        ghost var start, position := At(tokenStart), Position();
        assert input.data[position..][1..] == input.data[position + 1..];
        assert input.data[start..position] + [input.data[position]] == input.data[start..position + 1];
        text, rest := text + [rest[0]], rest[1..];
      }
      cursor := cursor + 1;
    }

    /** The text between the start of the token and the cursor becomes, or extends, the match. */
    method CaptureMatch()
      requires Valid() && cursor <= dataLimit
      modifies this`matched, this`more
      ensures !more && matched == (if old(more) then old(matched) else "") + text
    {
      TokenText();
      if more {
        matched := matched + buffer[tokenStart..cursor];
        more := false;
      } else {
        matched := buffer[tokenStart..cursor];
      }
    }

    lemma TokenText()
      requires Valid() && cursor <= dataLimit
      ensures buffer[tokenStart..cursor] == text
    {
      var bytes := buffer[tokenStart..cursor];
      forall i | 0 <= i < |bytes| ensures bytes[i] == text[i] {
        assert bytes[i] == buffer[tokenStart + i];
      }
    }

    /** Consumes the byte at the cursor; then the next character. */
    method ConsumeAndPeek() returns (ch: char)
      requires Valid() && !eof && cursor < limit
      modifies this`buffer, this`cursor, this`limit, this`tokenStart, this`dataLimit, this`eof, this`text, this`rest,
              buffer, input`pos
      ensures Valid() && (buffer == old(buffer) || fresh(buffer))
      ensures old(rest) != "" && text == old(text) + [old(rest)[0]] && rest == old(rest)[1..]
      ensures cursor < limit
      ensures if eof then dataLimit == cursor && rest == "" && ch == NUL
              else cursor < dataLimit && rest != "" && ch == rest[0]
    {
      hide Valid;
      Advance();
      ch := Peek();
    }

    /** Consumes a run of the class `p`, as long as it goes. */
    method Munch(p: char -> bool)
      requires Valid() && !eof && !p(NUL)
      modifies this`buffer, this`cursor, this`limit, this`tokenStart, this`dataLimit, this`eof, this`text, this`rest,
              buffer, input`pos
      ensures Paused() && (buffer == old(buffer) || fresh(buffer))
      ensures cursor <= dataLimit
      ensures text == old(text + rest[..Span(p, rest)]) && rest == old(rest[Span(p, rest)..])
    {
      hide Valid, Span, Munched;
      ghost var n := 0;
      ghost var s, before := rest, text;
      NothingMunched(p, s, before);
      var ch := Peek();
      while p(ch)
        invariant Valid() && (buffer == old(buffer) || fresh(buffer))
        invariant Munched(p, s, before, n, text, rest)
        invariant cursor < limit
        invariant if eof then dataLimit == cursor && rest == "" && ch == NUL
                  else cursor < dataLimit && rest != "" && ch == rest[0]
        decreases |s| - n
      {
        MunchedMore(p, s, before, n, text, rest);
        n := n + 1;
        ch := ConsumeAndPeek();
      }
      MunchedAll(p, s, before, n, text, rest);
    }

    /** What a match that is captured now will start with. */
    ghost function Pending(): string
      reads `more, `matched
    {
      if more then matched else ""
    }

    /** A DFA is entered with the token in flight still empty and the stream not known to have ended. */
    ghost predicate AtToken()
      reads `cursor, `limit, `tokenStart, `dataLimit, `eof, `text, `rest, `input, `buffer, input, buffer
    {
      Valid() && !eof && tokenStart == cursor && text == ""
    }

    /** Consumes the character at the cursor and captures it. */
    method Take()
      requires Valid() && !eof && cursor < limit && text == ""
      modifies this`cursor, this`text, this`rest, this`matched, this`more
      ensures Paused() && !eof && !more
      ensures old(rest) != "" && matched == old(Pending()) + [old(rest)[0]] && rest == old(rest)[1..]
    {
      hide Valid;
      Advance();
      CaptureMatch();
    }

    /** Consumes a run of the class `p`, whose first character is at the cursor, and captures it. */
    method TakeRun(p: char -> bool)
      requires Valid() && !eof && cursor < limit && text == "" && !p(NUL)
      requires rest != "" && p(rest[0])
      modifies this`buffer, this`cursor, this`limit, this`tokenStart, this`dataLimit, this`eof, this`text, this`rest,
              this`matched, this`more, buffer, input`pos
      ensures Paused() && (buffer == old(buffer) || fresh(buffer))
      ensures !more && matched == old(Pending()) + old(rest[..Span(p, rest)]) && rest == old(rest[Span(p, rest)..])
    {
      hide Valid, Span;
      ghost var s := rest;
      Advance();
      Munch(p);
      RunOf(p, s);
      CaptureMatch();
    }

    method LexInitial() returns (token: int)
      requires AtToken() && condition == INITIAL && !more
      modifies this`buffer, this`cursor, this`limit, this`tokenStart, this`dataLimit, this`eof, this`text, this`rest,
              this`condition, this`matched, this`more, buffer, input`pos
      ensures Paused() && (buffer == old(buffer) || fresh(buffer))
      ensures InitialMove(old(rest), token, matched, rest, condition, more)
      ensures if old(rest) == "" then eof else condition == Number ==> !eof
    {
      hide Valid;
      var ch := Peek();
      if ch == NUL || IsSpace(ch) {
        Advance();
        return 0;
      } else if ch == '"' {
        Advance();
        condition := Quoted;
        return 0;
      } else if ch == '(' {
        Take();
        return T.LPAREN;
      } else if ch == ')' {
        Take();
        return T.RPAREN;
      } else if ch == ',' {
        Take();
        return T.COMMA;
      } else if IsDigit(ch) {
        Take();
        more := true;
        condition := Number;
        return 0;
      } else {
        TakeRun(IsName);
        return T.VARIABLE;
      }
    }

    method LexQuoted() returns (token: int)
      requires AtToken() && condition == Quoted
      modifies this`buffer, this`cursor, this`limit, this`tokenStart, this`dataLimit, this`eof, this`text, this`rest,
              this`condition, this`matched, this`more, buffer, input`pos
      ensures Paused() && (buffer == old(buffer) || fresh(buffer))
      ensures QuotedMove(old(Pending()), old(rest), token, matched, rest, condition, more)
      ensures old(rest) == "" ==> eof
    {
      hide Valid, Span, QuotedMove;
      var ch := Peek();
      if ch == NUL {
        NulMoves(Pending(), rest, matched, more);
        Advance();
        return 0;
      } else if ch == '"' {
        EndQuoted();
        return T.STRING;
      } else {
        ContinueQuoted();
        return 0;
      }
    }

    /** Takes the closing quote, which is not part of the match. */
    method EndQuoted()
      requires Valid() && !eof && cursor < limit && text == "" && rest != "" && rest[0] == '"'
      modifies this`cursor, this`text, this`rest, this`condition, this`matched, this`more
      ensures Paused() && !eof
      ensures QuotedMove(old(Pending()), old(rest), T.STRING, matched, rest, condition, more)
    {
      QuotedMoves(Pending(), rest);
      WithoutLast(Pending(), rest[0]);
      hide Valid, QuotedMove, Pending;
      Take();
      matched := matched[..|matched| - 1];
      condition := INITIAL;
    }

    /** Takes a run of the literal, which is to be extended. */
    method ContinueQuoted()
      requires Valid() && !eof && cursor < limit && text == "" && rest != "" && IsQuotable(rest[0])
      requires condition == Quoted
      modifies this`buffer, this`cursor, this`limit, this`tokenStart, this`dataLimit, this`eof, this`text, this`rest,
              this`matched, this`more, buffer, input`pos
      ensures Paused() && (buffer == old(buffer) || fresh(buffer))
      ensures QuotedMove(old(Pending()), old(rest), 0, matched, rest, condition, more)
    {
      QuotedMoves(Pending(), rest);
      hide Valid, Span, QuotedMove;
      TakeRun(IsQuotable);
      more := true;
    }

    method LexNumber() returns (token: int)
      requires AtToken() && condition == Number
      modifies this`buffer, this`cursor, this`limit, this`tokenStart, this`dataLimit, this`eof, this`text, this`rest,
              this`condition, this`matched, this`more, buffer, input`pos
      ensures Paused() && (buffer == old(buffer) || fresh(buffer))
      ensures token == T.NUMBER && condition == INITIAL && !more
      ensures matched == old(Pending()) + old(rest[..Span(IsNumeric, rest)])
      ensures rest == old(rest[Span(IsNumeric, rest)..])
    {
      hide Valid;
      Munch(IsNumeric);
      CaptureMatch();
      condition := INITIAL;
      return T.NUMBER;
    }

    /** Between calls of `Lex` no token is half scanned, except at the end of the stream. */
    ghost predicate Resting()
      reads `condition, `more, `eof
    {
      if condition == INITIAL then !more else condition == Quoted && eof
    }

    /** Where the lexer is on its way to the next token of `s`. */
    ghost predicate Underway(s: string)
      reads `condition, `matched, `more, `eof, `rest
    {
      OnTheWay(s, matched, rest, condition, more) && (condition == Number ==> !eof)
    }

    lemma NothingAfterEnd()
      requires Paused()
      ensures eof ==> rest == "" && dataLimit <= cursor
    {
    }

    /** The lexer has come to the end of the next token of `s`, or of `s`. */
    ghost predicate Arrived(s: string, token: int)
      reads `condition, `matched, `more, `eof, `rest
    {
      && Resting()
      && rest == Next(s).rest
      && token == KindOf(Next(s).token)
      && (token != 0 ==> matched == TextOf(Next(s).token.value))
    }

    /** At the end of the stream there is no further token. */
    lemma AtEnd(s: string)
      requires Underway(s) && rest == "" && eof
      ensures Arrived(s, 0)
    {
    }

    /** Runs the DFAs until one of them returns a token or the stream has ended. */
    method Lex() returns (token: int)
      requires Paused() && Resting()
      modifies this`buffer, this`cursor, this`limit, this`tokenStart, this`dataLimit, this`eof, this`text, this`rest,
              this`condition, this`matched, this`more, buffer, input`pos
      ensures Paused() && (buffer == old(buffer) || fresh(buffer))
      ensures Arrived(old(rest), token)
    {
      NothingAfterEnd();
      ghost var s := rest;
      assert Underway(s);
      hide Paused, Valid, OnTheWay, Underway, Arrived, Resting;
      while true
        invariant Paused() && (buffer == old(buffer) || fresh(buffer))
        invariant eof ==> rest == "" && dataLimit <= cursor
        invariant Underway(s)
        decreases |rest|, if eof then 0 else 1
      {
        if eof && cursor >= dataLimit {
          AtEnd(s);
          return 0;
        }
        token := LexOnce(s);
        if token != 0 { return; }
      }
    }

    /** One round of `Lex`: the DFA of the current condition. */
    method LexOnce(ghost s: string) returns (token: int)
      requires Paused() && !eof && Underway(s)
      modifies this`buffer, this`cursor, this`limit, this`tokenStart, this`dataLimit, this`eof, this`text, this`rest,
              this`condition, this`matched, this`more, buffer, input`pos
      ensures Paused() && (buffer == old(buffer) || fresh(buffer))
      ensures eof ==> rest == "" && dataLimit <= cursor
      ensures token != 0 ==> Arrived(s, token)
      ensures token == 0 ==> Underway(s) && (|rest| < |old(rest)| || (rest == old(rest) && eof))
    {
      hide Valid, OnTheWay;
      StartToken();
      match condition {
        case INITIAL => token := OnceInitial(s);
        case Quoted => token := OnceQuoted(s);
        case Number => token := OnceNumber(s);
      }
    }

    method OnceNumber(ghost s: string) returns (token: int)
      requires AtToken() && condition == Number && Underway(s)
      modifies this`buffer, this`cursor, this`limit, this`tokenStart, this`dataLimit, this`eof, this`text, this`rest,
              this`condition, this`matched, this`more, buffer, input`pos
      ensures Paused() && (buffer == old(buffer) || fresh(buffer))
      ensures eof ==> rest == "" && dataLimit <= cursor
      ensures token != 0 && Arrived(s, token)
    {
      hide Valid;
      token := LexNumber();
      NothingAfterEnd();
    }

    method OnceInitial(ghost s: string) returns (token: int)
      requires AtToken() && condition == INITIAL && Underway(s)
      modifies this`buffer, this`cursor, this`limit, this`tokenStart, this`dataLimit, this`eof, this`text, this`rest,
              this`condition, this`matched, this`more, buffer, input`pos
      ensures Paused() && (buffer == old(buffer) || fresh(buffer))
      ensures eof ==> rest == "" && dataLimit <= cursor
      ensures token != 0 ==> Arrived(s, token)
      ensures token == 0 ==> Underway(s) && (|rest| < |old(rest)| || (rest == old(rest) && eof))
    {
      hide Valid;
      token := LexInitial();
      InitialProgress(s, old(rest), token, matched, rest, condition, more);
      NothingAfterEnd();
    }

    method OnceQuoted(ghost s: string) returns (token: int)
      requires AtToken() && condition == Quoted && Underway(s)
      modifies this`buffer, this`cursor, this`limit, this`tokenStart, this`dataLimit, this`eof, this`text, this`rest,
              this`condition, this`matched, this`more, buffer, input`pos
      ensures Paused() && (buffer == old(buffer) || fresh(buffer))
      ensures eof ==> rest == "" && dataLimit <= cursor
      ensures token != 0 ==> Arrived(s, token)
      ensures token == 0 ==> Underway(s) && (|rest| < |old(rest)| || (rest == old(rest) && eof))
    {
      hide Valid;
      token := LexQuoted();
      QuotedProgress(s, old(Pending()), old(rest), token, matched, rest, condition, more);
      NothingAfterEnd();
    }

    /** An empty buffer, to be filled from where the stream is. */
    method ResetBuffer()
      requires input.Valid()
      modifies this`buffer, this`cursor, this`limit, this`tokenStart, this`dataLimit, this`eof, this`text, this`rest
      ensures Paused() && fresh(buffer) && !eof && cursor == limit
      ensures rest == input.data[input.pos..]
    {
      buffer := new char[INITIAL_BUFFER_SIZE](_ => NUL);
      cursor, limit, tokenStart, dataLimit := 0, 0, 0, 0;
      eof := false;
      text, rest := "", input.data[input.pos..];
    }

    /** Scans a new stream from where it is. */
    method SwitchStreams(input: InputStream)
      requires input.Valid()
      modifies this
      ensures Paused() && Resting() && fresh(buffer) && this.input == input
      ensures rest == input.data[input.pos..]
    {
      this.input := input;
      ResetBuffer();
      condition := INITIAL;
      matched := "";
      more := false;
    }

    /** Gives the buffered bytes that have not been consumed back to the stream, which takes them all,
        and leaves it at the first of them. */
    method SyncBackToStream()
      requires Paused()
      modifies this`buffer, this`cursor, this`limit, this`tokenStart, this`dataLimit, this`eof, this`text, this`rest,
              input
      ensures Paused() && fresh(buffer)
      ensures rest == old(rest) && rest == input.data[input.pos..]
      ensures input.pos == old(Position()) && input.bad == old(input.bad)
    {
      var realLimit := if limit < dataLimit then limit else dataLimit;
      if realLimit > cursor {
        var p := realLimit;
        while p > cursor
          invariant cursor <= p <= realLimit
          invariant input.Valid() && input.pos == old(input.pos) - (realLimit - p)
          invariant input.bad == old(input.bad)
          modifies input
        {
          p := p - 1;
          assert buffer[p] == input.data[input.pos - 1];
          input.Putback(buffer[p]);
        }
      }
      ResetBuffer();
    }

    method StartToken()
      requires Paused() && !eof
      modifies this`tokenStart, this`text
      ensures AtToken()
    {
      tokenStart := cursor;
      text := "";
    }
  }

  /** `rest` is what is left of `s` on the way to its next token. */
  predicate OnTheWay(s: string, text: string, rest: string, condition: Condition, more: bool) {
    match condition
    case INITIAL => !more && Next(rest) == Next(s)
    case Quoted => QuotedFrom(if more then text else "", rest) == Next(s)
    case Number => more && NumberFrom(text, rest) == Next(s)
  }

  lemma {:induction false} InitialProgress(all: string, s: string, token: int, text: string, rest: string,
          condition: Condition, more: bool)
    requires Next(s) == Next(all) && InitialMove(s, token, text, rest, condition, more)
    ensures token == 0 ==> OnTheWay(all, text, rest, condition, more) && (s == "" || |rest| < |s|)
    ensures token != 0 ==> condition == INITIAL && !more
    ensures token != 0 ==>
      var r := Next(all); r.token.Some? && KindOf(r.token) == token && TextOf(r.token.value) == text && r.rest == rest
  {
    assert Next(all) ==
      if s == "" then Scan(None, "")
      else if IsSkipped(s[0]) then Next(s[1..])
      else if s[0] == '"' then QuotedFrom("", s[1..])
      else if s[0] == '(' then Scan(Some(LParen), s[1..])
      else if s[0] == ')' then Scan(Some(RParen), s[1..])
      else if s[0] == ',' then Scan(Some(Comma), s[1..])
      else if IsDigit(s[0]) then NumberFrom([s[0]], s[1..])
      else Scan(Some(VariableTok(s[..Span(IsName, s)])), s[Span(IsName, s)..]);
    hide Next, QuotedFrom, NumberFrom, Span;
  }

  lemma QuotedProgress(all: string, prefix: string, s: string, token: int, text: string, rest: string,
          condition: Condition, more: bool)
    requires QuotedFrom(prefix, s) == Next(all) && QuotedMove(prefix, s, token, text, rest, condition, more)
    ensures token == 0 ==> OnTheWay(all, text, rest, condition, more) && (s == "" || |rest| < |s|)
    ensures token != 0 ==> condition == INITIAL && !more
    ensures token != 0 ==>
      var r := Next(all); r.token.Some? && KindOf(r.token) == token && TextOf(r.token.value) == text && r.rest == rest
  {
    QuotedRun(prefix, s);
    if s != "" && s[0] == NUL { QuotedStep(prefix, s); }
    if s != "" && s[0] == '"' { assert prefix + WithoutNul(s[..0]) == prefix; }
  }
}
