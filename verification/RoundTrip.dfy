/** Printing a tree as a functional expression, and getting it back by scanning, parsing and running
    the actions. */
module RoundTrip {
  import opened Characters
  import opened Grammar
  import opened Json
  import opened Option
  import opened Tokenizer
  import opened FunctionalLexer
  import opened FunctionalTokenizer
  import opened FunctionalParser
  import opened ParserCorrectness
  import opened Sequences
  import A = Automaton

  // ----- Printing --------------------------------------------------------------------------

  function Digits(n: nat): (text: string)
    ensures text != ""
  {
    if n < 10 then [DigitChar(n)] else Digits(n / 10) + [DigitChar(n % 10)]
  }

  /** Names are not quoted, so they have to be names to the scanner. */
  predicate IsNameText(s: string) {
    s != "" && forall i :: 0 <= i < |s| ==> IsName(s[i])
  }

  predicate IsQuotableText(s: string) {
    forall i :: 0 <= i < |s| ==> IsQuotable(s[i])
  }

  predicate IsFloatText(s: string) {
    s != "" && IsDigit(s[0]) && '.' in s && forall i :: 0 <= i < |s| ==> IsNumeric(s[i])
  }

  /** A tree as it can stand below another one: heads without parameters have been collapsed. */
  predicate IsParameter(j: Json)
    decreases j
  {
    match j
    case Str(s) => IsQuotableText(s)
    case Int(n) => 0 <= n <= MAX_INTEGER
    case Float(s) => IsFloatText(s)
    case Obj(functor, params) =>
      functor.Some? && IsNameText(functor.value) && params.Present? && params.value != [] && AreParameters(params.value)
  }

  predicate AreParameters(args: seq<Json>) {
    forall i :: 0 <= i < |args| ==> IsParameter(args[i])
  }

  /** A whole expression: a name, with or without parameters. */
  predicate IsNormal(j: Json) {
    && j.Obj? && j.functor.Some? && IsNameText(j.functor.value)
    && (j.params.Present? ==> j.params.value != [] && AreParameters(j.params.value))
  }

  function Print(j: Json): string
    requires IsParameter(j) || IsNormal(j)
    decreases j, 1
  {
    match j
    case Str(s) => "\"" + s + "\""
    case Int(n) => Digits(n)
    case Float(s) => s
    case Obj(functor, params) =>
      functor.value + if params.Absent? then "" else "(" + PrintAll(params.value, false) + ")"
  }

  function PrintAll(args: seq<Json>, comma: bool): string
    requires AreParameters(args)
    decreases args, 0
  {
    if args == [] then ""
    else (if comma then "," else "") + Print(args[0]) + PrintAll(args[1..], true)
  }

  /** The parse tree of what is printed. */
  function ToExp(j: Json): Exp
    requires IsParameter(j) || IsNormal(j)
    decreases j, 1
  {
    match j
    case Str(s) => Exp(StringTok(s), NoParams)
    case Int(n) => Exp(NumberTok(Digits(n)), NoParams)
    case Float(s) => Exp(NumberTok(s), NoParams)
    case Obj(functor, params) =>
      Exp(VariableTok(functor.value), if params.Absent? then NoParams else Args(ToList(params.value, false)))
  }

  function ToList(args: seq<Json>, comma: bool): ParamList
    requires AreParameters(args)
    decreases args, 0
  {
    if args == [] then Nil else Cons(comma, ToExp(args[0]), ToList(args[1..], true))
  }

  // ----- The parse tree denotes the tree that was printed ------------------------------------

  lemma {:induction false} DigitsRead(n: nat)
    ensures Decimal(Digits(n)) == n
    ensures forall i :: 0 <= i < |Digits(n)| ==> IsDigit(Digits(n)[i])
  {
    if n < 10 {
      assert [DigitChar(n)][..0] == "";
    } else {
      DigitsRead(n / 10);
      assert Digits(n)[..|Digits(n)| - 1] == Digits(n / 10);
    }
  }

  lemma {:induction false} TreeOfPrinted(j: Json)
    requires IsParameter(j) || IsNormal(j)
    ensures TreeOf(ToExp(j)) == j && WellHeaded(ToExp(j))
    ensures IsParameter(j) ==> Collapse(j) == j
    decreases j, 1
  {
    match j
    case Int(n) => DigitsRead(n);
    case Obj(functor, params) =>
      if params.Present? { ParamsOfPrinted(params.value, false); }
    case _ =>
  }

  lemma {:induction false} ParamsOfPrinted(args: seq<Json>, comma: bool)
    requires AreParameters(args)
    ensures ParamsOf(ToList(args, comma)) == args && WellHeadedList(ToList(args, comma))
    decreases args, 0
  {
    if args != [] {
      TreeOfPrinted(args[0]);
      ParamsOfPrinted(args[1..], true);
    }
  }

  // ----- Scanning what is printed gives the tokens of the parse tree ---------------------------

  lemma {:induction false} SpanOfRun(p: char -> bool, run: string, rest: string)
    requires forall i :: 0 <= i < |run| ==> p(run[i])
    requires rest == "" || !p(rest[0])
    ensures Span(p, run + rest) == |run|
    ensures (run + rest)[..|run|] == run && (run + rest)[|run|..] == rest
  {
    if run == "" {
      assert run + rest == rest;
    } else {
      assert (run + rest)[1..] == run[1..] + rest;
      SpanOfRun(p, run[1..], rest);
    }
  }

  /** What ends a name and a number. */
  predicate Delimits(rest: string) {
    rest == "" || rest[0] == '(' || rest[0] == ')' || rest[0] == ','
  }

  /** What the scanner does at a character that is not skipped. */
  lemma NextAt(c: char, rest: string)
    requires !IsSkipped(c)
    ensures Next([c] + rest) ==
      if c == '"' then QuotedFrom("", rest)
      else if c == '(' then Scan(Some(LParen), rest)
      else if c == ')' then Scan(Some(RParen), rest)
      else if c == ',' then Scan(Some(Comma), rest)
      else if IsDigit(c) then NumberFrom([c], rest)
      else NameFrom([c] + rest)
  {
    var s := [c] + rest;
    assert s[0] == c && s[1..] == rest;
  }

  lemma ScansString(s: string, rest: string)
    requires IsQuotableText(s)
    ensures Next("\"" + s + "\"" + rest) == Scan(Some(StringTok(s)), rest)
  {
    var after := s + ("\"" + rest);
    assert "\"" + s + "\"" + rest == ['"'] + after;
    NextAt('"', after);
    hide Next;
    SpanOfRun(NotQuote, s, "\"" + rest);
    WithoutNulIsSame(s);
    assert after[|s| + 1..] == rest;
    assert "" + s == s;
  }

  lemma {:induction false} WithoutNulIsSame(s: string)
    requires forall i :: 0 <= i < |s| ==> s[i] != NUL
    ensures WithoutNul(s) == s
  {
    if s != "" { WithoutNulIsSame(s[1..]); }
  }

  lemma ScansNumber(s: string, rest: string)
    requires s != "" && IsDigit(s[0]) && forall i :: 0 <= i < |s| ==> IsNumeric(s[i])
    requires Delimits(rest)
    ensures Next(s + rest) == Scan(Some(NumberTok(s)), rest)
  {
    hide Next, NumberFrom, NameFrom, QuotedFrom, Span;
    HeadAndTail(s, rest);
    NextAt(s[0], s[1..] + rest);
    RestOfNumber([s[0]], s[1..], rest);
  }

  lemma RestOfNumber(prefix: string, run: string, rest: string)
    requires (forall i :: 0 <= i < |run| ==> IsNumeric(run[i])) && Delimits(rest)
    ensures NumberFrom(prefix, run + rest) == Scan(Some(NumberTok(prefix + run)), rest)
  {
    hide Span;
    SpanOfRun(IsNumeric, run, rest);
  }

  lemma ScansName(s: string, rest: string)
    requires IsNameText(s) && Delimits(rest)
    ensures Next(s + rest) == Scan(Some(VariableTok(s)), rest)
  {
    assert IsName(s[0]);
    HeadAndTail(s, rest);
    hide Next, QuotedFrom, NumberFrom, NameFrom, Span;
    NextAt(s[0], s[1..] + rest);
    RestOfName(s, rest);
  }

  lemma RestOfName(s: string, rest: string)
    requires IsNameText(s) && Delimits(rest)
    ensures NameFrom(s + rest) == Scan(Some(VariableTok(s)), rest)
  {
    hide Span;
    SpanOfRun(IsName, s, rest);
  }

  lemma ScansPunctuation(rest: string)
    ensures Tokens("(" + rest) == [LParen] + Tokens(rest)
    ensures Tokens(")" + rest) == [RParen] + Tokens(rest)
    ensures Tokens("," + rest) == [Comma] + Tokens(rest)
  {
    NextAt('(', rest);
    NextAt(')', rest);
    NextAt(',', rest);
    hide Next;
  }

  lemma ScansHead(j: Json, rest: string)
    requires IsParameter(j) && !j.Obj? && Delimits(rest)
    ensures Tokens(Print(j) + rest) == [ToExp(j).head] + Tokens(rest)
  {
    match j
    case Str(s) => ScansString(s, rest);
    case Int(n) => DigitsRead(n); ScansNumber(Digits(n), rest);
    case Float(s) => ScansNumber(s, rest);
  }

  lemma {:induction false} TokensOfPrinted(j: Json, rest: string)
    requires IsParameter(j) || IsNormal(j)
    requires Delimits(rest)
    ensures Tokens(Print(j) + rest) == Yield(ToExp(j)) + Tokens(rest)
    decreases j, 1
  {
    hide Tokens, Next;
    if !j.Obj? {
      ScansHead(j, rest);
    } else if j.params.Absent? {
      TokensOfName(j.functor.value, rest);
      assert Print(j) == j.functor.value;
    } else {
      var name, args := j.functor.value, j.params.value;
      var close := ")" + rest;
      var open := "(" + (PrintAll(args, false) + close);
      assert Print(j) + rest == name + open;
      TokensOfName(name, open);
      ScansPunctuation(PrintAll(args, false) + close);
      TokensOfList(args, false, close);
      ScansPunctuation(rest);
      assert Yield(ToExp(j)) == [VariableTok(name)] + ([LParen] + YieldList(ToList(args, false)) + [RParen]);
    }
  }

  lemma TokensOfName(s: string, rest: string)
    requires IsNameText(s) && Delimits(rest)
    ensures Tokens(s + rest) == [VariableTok(s)] + Tokens(rest)
  {
    ScansName(s, rest);
  }

  lemma {:induction false} TokensOfList(args: seq<Json>, comma: bool, rest: string)
    requires AreParameters(args)
    requires rest != "" && rest[0] == ')'
    ensures Tokens(PrintAll(args, comma) + rest) == YieldList(ToList(args, comma)) + Tokens(rest)
    decreases args, 0
  {
    if args == [] {
      assert PrintAll(args, comma) + rest == rest;
    } else {
      var first, others := Print(args[0]), PrintAll(args[1..], true);
      var separator := if comma then "," else "";
      assert PrintAll(args, comma) + rest == separator + (first + (others + rest));
      var l := ToList(args, comma);
      assert l == Cons(comma, ToExp(args[0]), ToList(args[1..], true));
      assert YieldList(l) == YieldComma(comma) + Yield(l.exp) + YieldList(l.rest);
      ListDelimits(args[1..], rest);
      hide Tokens, Next, Print, PrintAll, ToExp, ToList, Yield, YieldList;
      TokensOfPrinted(args[0], others + rest);
      TokensOfList(args[1..], true, rest);
      Associative(YieldComma(comma), Yield(l.exp), YieldList(l.rest));
      Associative(YieldComma(comma), Yield(l.exp) + YieldList(l.rest), Tokens(rest));
      Associative(Yield(l.exp), YieldList(l.rest), Tokens(rest));
      Separator(comma, first + (others + rest));
    }
  }

  /** What follows a parameter ends it. */
  lemma ListDelimits(args: seq<Json>, rest: string)
    requires AreParameters(args) && rest != "" && rest[0] == ')'
    ensures Delimits(PrintAll(args, true) + rest)
  {
    assert args == [] ==> PrintAll(args, true) + rest == rest;
  }

  lemma Separator(comma: bool, s: string)
    ensures Tokens((if comma then "," else "") + s) == YieldComma(comma) + Tokens(s)
  {
    if comma {
      ScansPunctuation(s);
    } else {
      assert "" + s == s && [] + Tokens(s) == Tokens(s);
    }
  }

  // ----- The results -------------------------------------------------------------------------

  /** The tokens of a printed tree are derived by the parse tree that denotes it. */
  lemma PrintedIsDerived(j: Json)
    requires IsNormal(j)
    ensures Tokens(Print(j)) == Yield(ToExp(j))
    ensures TreeOf(ToExp(j)) == j && WellHeaded(ToExp(j)) && ToExp(j).head.VariableTok?
  {
    TokensOfPrinted(j, "");
    assert Print(j) + "" == Print(j);
    TreeOfPrinted(j);
  }

  /** Printing is injective, even up to the tokens. */
  lemma PrintsOnce(j: Json, k: Json)
    requires IsNormal(j) && IsNormal(k) && Tokens(Print(j)) == Tokens(Print(k))
    ensures j == k
  {
    PrintedIsDerived(j);
    PrintedIsDerived(k);
    OneTree(ToExp(j), ToExp(k));
  }

  /** The texts that the scanner can give to a token. */
  predicate IsScanned(t: Token) {
    match t
    case StringTok(s) => IsQuotableText(s)
    case NumberTok(s) => s != "" && IsDigit(s[0]) && forall i :: 0 <= i < |s| ==> IsNumeric(s[i])
    case VariableTok(s) => IsNameText(s)
    case _ => true
  }

  predicate AreScanned(ts: seq<Token>) {
    forall i :: 0 <= i < |ts| ==> IsScanned(ts[i])
  }

  lemma {:induction false} WithoutNulQuotable(s: string)
    requires forall i :: 0 <= i < |s| ==> NotQuote(s[i])
    ensures IsQuotableText(WithoutNul(s))
  {
    if s != "" { WithoutNulQuotable(s[1..]); }
  }

  lemma {:induction false} NextIsScanned(s: string)
    ensures Next(s).token.Some? ==> IsScanned(Next(s).token.value)
    decreases |s|
  {
    if s != "" {
      if IsSkipped(s[0]) {
        NextIsScanned(s[1..]);
      } else if s[0] == '"' {
        WithoutNulQuotable(s[1..][..Span(NotQuote, s[1..])]);
      }
    }
  }

  lemma {:induction false} TokensAreScanned(s: string)
    ensures AreScanned(Tokens(s))
    decreases |s|
  {
    NextIsScanned(s);
    hide Next;
    if Next(s).token.Some? { TokensAreScanned(Next(s).rest); }
  }

  lemma SplitScanned(a: seq<Token>, b: seq<Token>)
    requires AreScanned(a + b)
    ensures AreScanned(a) && AreScanned(b)
  {
    forall i | 0 <= i < |a| ensures IsScanned(a[i]) { assert (a + b)[i] == a[i]; }
    forall i | 0 <= i < |b| ensures IsScanned(b[i]) { assert (a + b)[|a| + i] == b[i]; }
  }

  lemma ScannedHead(t: Token)
    requires IsHead(t) && IsScanned(t)
    ensures IsParameter(Collapse(HeadValue(t)))
    ensures t.VariableTok? ==> IsNormal(HeadValue(t))
  {
  }

  /** The tree of what has been scanned is one that can be printed. */
  lemma {:induction false} ScannedTreeIsNormal(e: Exp)
    requires WellHeaded(e) && AreScanned(Yield(e))
    ensures IsParameter(Collapse(TreeOf(e)))
    ensures e.head.VariableTok? ==> IsNormal(TreeOf(e))
    decreases e, 1
  {
    assert IsScanned(Yield(e)[0]);
    ScannedHead(e.head);
    if e.params.Args? && e.params.list.Cons? {
      var l := e.params.list;
      assert Yield(e) == [e.head] + ([LParen] + YieldList(l) + [RParen]);
      hide Yield, YieldList;
      SplitScanned([e.head], [LParen] + YieldList(l) + [RParen]);
      SplitScanned([LParen] + YieldList(l), [RParen]);
      SplitScanned([LParen], YieldList(l));
      ScannedParamsAreNormal(l);
    }
  }

  lemma {:induction false} ScannedParamsAreNormal(l: ParamList)
    requires WellHeadedList(l) && AreScanned(YieldList(l))
    ensures AreParameters(ParamsOf(l)) && (l.Cons? ==> ParamsOf(l) != [])
    decreases l, 0
  {
    if l.Cons? {
      assert YieldList(l) == YieldComma(l.comma) + Yield(l.exp) + YieldList(l.rest);
      hide Yield, YieldList;
      SplitScanned(YieldComma(l.comma) + Yield(l.exp), YieldList(l.rest));
      SplitScanned(YieldComma(l.comma), Yield(l.exp));
      ScannedTreeIsNormal(l.exp);
      ScannedParamsAreNormal(l.rest);
    }
  }

  /** Whatever text a tree has been parsed from, printing the tree and parsing it again gives the
      same tree. */
  lemma ParsedTreeComesBack(s: string, e: Exp)
    requires Yield(e) == Tokens(s) && WellHeaded(e) && e.head.VariableTok?
    ensures IsNormal(TreeOf(e))
    ensures forall d: Exp :: Yield(d) == Tokens(Print(TreeOf(e))) ==> WellHeaded(d) && TreeOf(d) == TreeOf(e)
  {
    TokensAreScanned(s);
    hide Tokens, Next, Yield;
    ScannedTreeIsNormal(e);
    var j := TreeOf(e);
    PrintedIsDerived(j);
    forall d: Exp | Yield(d) == Tokens(Print(j)) ensures WellHeaded(d) && TreeOf(d) == j {
      OneTree(ToExp(j), d);
    }
  }

  /** What becomes of a printed tree: only a stack that is too small can keep it from being accepted. */
  lemma PrintedRun(j: Json, limit: nat)
    requires IsNormal(j)
    ensures var m := A.Initial(Tokens(Print(j)));
      && A.Valid(m)
      && A.Run(m, limit).outcome == if 1 + Height(ToExp(j)) < limit then A.Accepted else A.MemoryExhausted
  {
    PrintedIsDerived(j);
    hide A.Run, Yield, Tokens;
    AcceptedTree(ToExp(j), limit);
  }

  /** Parsing a printed tree from a stream gives the tree back and reads the stream to its end,
      exactly when the stack is large enough. */
  method PrintAndParse(parser: TokenizerLexer, j: Json, limit: nat) returns (outcome: A.Outcome, root: JsonObject)
    requires IsNormal(j) && limit > 0
    modifies parser, parser.lexer
    ensures outcome == if 1 + Height(ToExp(j)) < limit then A.Accepted else A.MemoryExhausted
    ensures outcome == A.Accepted ==> root.Value() == j
  {
    PrintedRun(j, limit);
    var text := Print(j);
    var input := new InputStream(text);
    assert input.Valid() && text[0..] == text;
    hide *;
    outcome, root := FunctionalParse(parser, input, limit);
    if outcome == A.Accepted { PrintedIsParsed(j, limit, root.Value()); }
  }

  lemma PrintedIsParsed(j: Json, limit: nat, root: Json)
    requires IsNormal(j) && IsParse(Print(j), limit, A.Accepted, root)
    ensures root == j
  {
    PrintedIsDerived(j);
    hide Tokens, Yield, Print, Fits, Derives;
    assert root == RootOf(ToExp(j));
  }
}
