/** The generated parser, driving the scanner and the actions, and the entry points around it. */
module FunctionalParser {
  import opened Grammar
  import opened Json
  import opened Option
  import opened Tokenizer
  import opened FunctionalLexer
  import opened FunctionalTokenizer
  import opened ParserCorrectness
  import A = Automaton
  import T = ParserTables

  const YYEMPTY := -2

  /** The scanner stands where the machine says: behind its lookahead, if it has taken one. */
  ghost predicate Scanned(s: string, lexer: Lexer, m: A.Machine, yychar: int)
    reads lexer, lexer.input, lexer.buffer
  {
    && lexer.Paused() && lexer.Resting()
    && (m.read <==> yychar != YYEMPTY)
    && (if m.states != [] && A.Top(m.states) == T.YYFINAL then lexer.rest == ""
        else if m.toks == [] && m.read then lexer.rest == "" && yychar == T.YYEOF
        else if m.read then
          && yychar == KindOf(Some(m.toks[0])) && lexer.matched == TextOf(m.toks[0])
          && Tokens(lexer.rest) == m.toks[1..] && Behind(s, lexer.rest)
        else Tokens(lexer.rest) == m.toks && Behind(s, lexer.rest))
  }

  /** `rest` is what is left of `s` after the tokens that are not tokens of `rest`. */
  ghost predicate Behind(s: string, rest: string) {
    && |Tokens(rest)| <= |Tokens(s)|
    && rest == Dropped(s, |Tokens(s)| - |Tokens(rest)|)
  }

  /** Where a run that ends in `r` leaves the scanner of `s`. */
  function Leftover(s: string, r: A.Result): string {
    if r.ended || |Tokens(s)| < |r.unread| then "" else Dropped(s, |Tokens(s)| - |r.unread|)
  }

  /** The actions have built what the machine says, and the scanner's match is the head whose action
      is about to run. */
  ghost predicate InStep(ctx: TokenizerLexer, m: A.Machine)
    reads ctx, ctx.owned, ctx.lexer
  {
    && ctx.Built()
    && ctx.Vals() == m.vals
    && (m.states != [] && 1 <= A.Top(m.states) <= 3 ==> ctx.lexer.matched == A.LastText(m))
  }

  lemma NextIsBehind(s: string, rest: string)
    requires Behind(s, rest)
    ensures if Tokens(rest) == [] then Next(rest) == Scan(None, "")
            else
              && Next(rest).token == Some(Tokens(rest)[0]) && Tokens(Next(rest).rest) == Tokens(rest)[1..]
              && Behind(s, Next(rest).rest)
  {
    var r := Next(rest);
    hide Next;
    if r.token.Some? {
      assert Tokens(rest) == [r.token.value] + Tokens(r.rest);
      var k := |Tokens(s)| - |Tokens(rest)|;
      assert Dropped(s, k + 1) == Next(Dropped(s, k)).rest;
    }
  }

  lemma TranslatedKind(toks: seq<Token>)
    ensures T.Translate(KindOf(if toks == [] then None else Some(toks[0]))) == A.NextSymbol(toks)
    ensures KindOf(if toks == [] then None else Some(toks[0])) != YYEMPTY
    ensures KindOf(None) == T.YYEOF
    ensures toks != [] ==> KindOf(Some(toks[0])) != T.YYEOF
  {
  }

  lemma StateInRange(m: A.Machine)
    requires A.Valid(m)
    ensures A.IsState(A.Top(m.states))
  {
  }

  /** The run stops where the stack is full, and where the final state has been reached. */
  lemma Exhausted(m: A.Machine, limit: nat)
    requires A.Valid(m) && limit <= |m.states|
    ensures A.Stopped(m, A.MemoryExhausted) == A.Stop(A.Run(m, limit))
  {
  }

  lemma Finished(m: A.Machine, limit: nat)
    requires A.Valid(m) && |m.states| < limit && A.Top(m.states) == T.YYFINAL
    ensures A.Stopped(m, A.Accepted) == A.Stop(A.Run(m, limit))
  {
  }

  /** States that do not consult a lookahead act alike on all symbols. */
  lemma ActionFound(state: nat, yytoken: nat, symbol: nat)
    requires state < T.YYNSTATES && yytoken < T.YYNTOKENS
    requires A.Consults(state) ==> yytoken == symbol
    ensures T.TableAction(state, yytoken) == A.Action(state, symbol)
  {
    A.TablesAreLalr(state, yytoken);
  }

  /** The machine's round, as the loop goes through it. */
  lemma RoundRuns(m: A.Machine, n: A.Machine, limit: nat, action: T.Action)
    requires A.Valid(m) && |m.states| < limit && A.Top(m.states) != T.YYFINAL
    requires n == A.Consulted(m) && action == A.Action(A.Top(m.states), A.NextSymbol(m.toks))
    ensures A.Valid(n)
    ensures action.Reject? ==> A.Stopped(n, A.SyntaxError) == A.Stop(A.Run(m, limit))
    ensures action.Shift? ==>
      && var next := A.AfterShift(n, action.to);
      && A.IsState(action.to) && A.Consults(A.Top(m.states)) && (action.to == T.YYFINAL <==> m.toks == [])
      && A.Valid(next) && A.Decreases(m, next) && A.Run(m, limit) == A.Run(next, limit)
    ensures action.Reduce? ==> 2 <= action.rule <= 12 && A.RuleLength(action.rule) < |m.states|
    ensures action.Reduce? ==>
      && var effect := A.Effects(action.rule, A.LastText(n), n.vals);
      && (effect.Failed? ==> A.Stopped(n, effect.outcome) == A.Stop(A.Run(m, limit)))
      && (effect.Values? ==>
            && var next := A.AfterReduce(n, action.rule, effect.vals);
            && A.Valid(next) && A.Decreases(m, next) && A.Run(m, limit) == A.Run(next, limit))
  {
    A.StepKeepsValid(m, limit);
    if action.Shift? {
      assert A.AfterShift(n, action.to).states[|m.states|] == action.to;
    }
    if action.Reduce? {
      A.ReductionHasHandle(m.states, A.NextSymbol(m.toks), action.rule);
    }
  }

  /** The tables say how much to pop, and where to go from what is uncovered. */
  lemma ReduceIsPossible(m: A.Machine, symbol: nat, rule: int)
    requires A.Valid(m) && A.Top(m.states) != T.YYFINAL
    requires A.Action(A.Top(m.states), symbol) == T.Reduce(rule)
    ensures 2 <= rule <= 12 && T.YYR2[rule] == A.RuleLength(rule) < |m.states|
    ensures var below := m.states[|m.states| - 1 - A.RuleLength(rule)];
      && A.IsState(below)
      && T.TableGoto(rule, below) == A.Goto(rule, below)
      && A.IsState(A.Goto(rule, below)) && A.Goto(rule, below) != T.YYFINAL && A.Goto(rule, below) > 3
  {
    A.ReductionHasHandle(m.states, symbol, rule);
    A.HandleHasGoto(m.states, symbol, rule);
    A.GotosAreLalr(rule, m.states[|m.states| - 1 - A.RuleLength(rule)]);
  }

  /** The lookahead is taken from the scanner if there is none yet. */
  method Lookahead(ctx: TokenizerLexer, yychar: int, ghost s: string, ghost m: A.Machine) returns (next: int)
    requires A.Valid(m) && A.Consults(A.Top(m.states))
    requires Scanned(s, ctx.lexer, m, yychar) && InStep(ctx, m)
    modifies ctx.lexer, ctx.lexer.buffer, ctx.lexer.input`pos
    ensures ctx.lexer.buffer == old(ctx.lexer.buffer) || fresh(ctx.lexer.buffer)
    ensures ctx.lexer.input == old(ctx.lexer.input)
    ensures Scanned(s, ctx.lexer, A.Consulted(m), next) && InStep(ctx, A.Consulted(m))
    ensures T.Translate(next) == A.NextSymbol(m.toks)
  {
    hide Tokens, Next, Dropped, Behind, A.IsPath, A.TotalWeight, KindOf, T.Translate, Lexer.Paused;
    TranslatedKind(m.toks);
    next := yychar;
    if next == YYEMPTY {
      NextIsBehind(s, ctx.lexer.rest);
      next := ctx.lexer.Lex();
    }
  }

  /** The action of a rule; only adding a parameter can fail. */
  method Act(ctx: TokenizerLexer, rule: int, ghost symbol: nat, ghost m: A.Machine) returns (ok: bool)
    requires A.Valid(m) && A.Top(m.states) != T.YYFINAL && InStep(ctx, m)
    requires A.Action(A.Top(m.states), symbol) == T.Reduce(rule)
    modifies ctx`stack, ctx`owned, ctx.owned
    ensures ctx.Built()
    ensures var effect := A.Effects(rule, A.LastText(m), m.vals);
      if ok then effect == A.Values(ctx.Vals()) else effect == A.Failed(A.TypeError)
    ensures fresh(ctx.owned - old(ctx.owned))
  {
    A.NoUnderflow(m, symbol, rule);
    assert |ctx.stack| == |ctx.Vals()| == |m.vals|;
    assert 10 <= rule <= 12 ==> 1 <= A.Top(m.states) <= 3;
    hide A.Valid, A.Action;
    ghost var effect := A.Effects(rule, A.LastText(m), m.vals);
    ok := true;
    match rule {
      case 6 => ok := ctx.AddParam();
      case 8 => ok := ctx.AddParam();
      case 10 => ctx.SetString();
      case 11 => ctx.SetNumber();
      case 12 => ctx.SetVariable();
      case _ =>
    }
    assert ok ==> effect.Values? && effect.vals == ctx.Vals();
  }

  /** Runs the action of `rule`, pops its right-hand side and pushes the state that follows. */
  method Reduce(ctx: TokenizerLexer, yyss: array<int>, yyssp: nat, rule: int, ghost symbol: nat,
          ghost m: A.Machine) returns (ok: bool, sp: nat, state: int)
    requires A.Valid(m) && A.Top(m.states) != T.YYFINAL && InStep(ctx, m)
    requires A.Action(A.Top(m.states), symbol) == T.Reduce(rule)
    requires yyssp < yyss.Length && yyss[..yyssp + 1] == m.states
    modifies ctx`stack, ctx`owned, ctx.owned
    ensures fresh(ctx.owned - old(ctx.owned))
    ensures ctx.Built() && A.RuleLength(rule) < |m.states| && 2 <= rule <= 12
    ensures var effect := A.Effects(rule, A.LastText(m), m.vals);
      if ok then effect == A.Values(ctx.Vals()) else effect == A.Failed(A.TypeError)
    ensures ok ==> InStep(ctx, A.AfterReduce(m, rule, ctx.Vals()))
    ensures ok ==>
      sp <= yyssp + 1 && state != T.YYFINAL && A.AfterReduce(m, rule, ctx.Vals()).states == yyss[..sp] + [state]
  {
    ReduceIsPossible(m, symbol, rule);
    ok := Act(ctx, rule, symbol, m);
    hide A.Action, A.Goto, A.RuleLength, A.Effects, A.Valid;
    sp := yyssp - T.YYR2[rule];
    assert m.states[|m.states| - 1 - A.RuleLength(rule)] == yyss[sp];
    state := T.TableGoto(rule, yyss[sp]);
    sp := sp + 1;
    assert A.Pop(m.states, A.RuleLength(rule)) == yyss[..sp];
  }

  /** The machine, which has been run this far, and the program are in the same state. */
  ghost predicate Together(s: string, ctx: TokenizerLexer, m: A.Machine, yychar: int, limit: nat, result: A.Result)
    reads ctx, ctx.owned, ctx.lexer, ctx.lexer.input, ctx.lexer.buffer
  {
    && A.Valid(m) && A.Run(m, limit) == result
    && Scanned(s, ctx.lexer, m, yychar) && InStep(ctx, m)
  }

  /** The program has come to the end of the run. */
  ghost predicate Ended(s: string, ctx: TokenizerLexer, outcome: A.Outcome, result: A.Result)
    reads ctx, ctx.owned, ctx.lexer, ctx.lexer.input, ctx.lexer.buffer
  {
    && outcome == result.outcome
    && ctx.Built() && ctx.lexer.Paused()
    && (outcome == A.Accepted ==> ctx.Vals() == result.vals)
    && ctx.lexer.rest == Leftover(s, result)
  }

  lemma StoppedHere(s: string, ctx: TokenizerLexer, m: A.Machine, yychar: int, limit: nat, result: A.Result,
          outcome: A.Outcome)
    requires A.Valid(m) && Scanned(s, ctx.lexer, m, yychar) && ctx.Built()
    requires outcome == A.Accepted ==> InStep(ctx, m)
    requires A.Stopped(m, outcome) == A.Stop(result)
    ensures Ended(s, ctx, outcome, result)
  {
    hide Tokens, Dropped, Next, A.IsPath, A.TotalWeight, A.Run, KindOf, TokenizerLexer.Vals, TokenizerLexer.Built,
            Lexer.Paused;
  }

  /** A shift, with the lookahead taken. */
  lemma Shifted(s: string, ctx: TokenizerLexer, m: A.Machine, yychar: int, to: int)
    requires A.Valid(m) && m.read && Scanned(s, ctx.lexer, m, yychar) && InStep(ctx, m)
    requires A.Top(m.states) != T.YYFINAL
    requires A.Valid(A.AfterShift(m, to)) && (to == T.YYFINAL <==> m.toks == [])
    ensures Scanned(s, ctx.lexer, A.AfterShift(m, to), YYEMPTY) && InStep(ctx, A.AfterShift(m, to))
  {
    hide Tokens, Dropped, Next, A.IsPath, A.TotalWeight, A.Run, KindOf, TokenizerLexer.Vals, TokenizerLexer.Built,
            Lexer.Paused;
  }

  lemma Reduced(s: string, lexer: Lexer, m: A.Machine, n: A.Machine, yychar: int)
    requires Scanned(s, lexer, m, yychar) && n.read == m.read && n.toks == m.toks
    requires m.states != [] && A.Top(m.states) != T.YYFINAL
    requires n.states != [] && A.Top(n.states) != T.YYFINAL
    ensures Scanned(s, lexer, n, yychar)
  {
    hide Tokens, Dropped, Next, KindOf, Lexer.Paused;
  }

  /** Rejects, shifts or reduces. */
  method Perform(ctx: TokenizerLexer, limit: nat, yyss: array<int>, yyssp: nat, action: T.Action, yychar: int,
                 ghost s: string, ghost m: A.Machine, ghost n: A.Machine, ghost result: A.Result)
    returns (verdict: Option<A.Outcome>, sp: nat, state: int, char': int, ghost next: A.Machine)
    requires yyss.Length == limit && yyssp < limit - 1 && m.states == yyss[..yyssp + 1] && A.Valid(m)
    requires A.Top(m.states) != T.YYFINAL
    requires n == A.Consulted(m) && action == A.Action(A.Top(m.states), A.NextSymbol(m.toks))
    requires A.Run(m, limit) == result
    requires Scanned(s, ctx.lexer, n, yychar) && InStep(ctx, n)
    modifies ctx`stack, ctx`owned, ctx.owned
    ensures fresh(ctx.owned - old(ctx.owned))
    ensures verdict.Some? ==> Ended(s, ctx, verdict.value, result)
    ensures verdict.None? ==>
      && sp < limit && next.states == yyss[..sp] + [state]
      && Together(s, ctx, next, char', limit, result)
      && A.Decreases(m, next)
  {
    hide A.Run, A.Step, A.IsPath, A.TotalWeight, A.Action, A.Effects, A.Goto, A.RuleLength, A.Potential;
    hide Scanned, Leftover, Lexer.Paused, TokenizerLexer.Built, TokenizerLexer.Vals;
    sp, state, char', next := yyssp, 0, yychar, m;
    RoundRuns(m, n, limit, action);
    if action.Reject? {
      StoppedHere(s, ctx, n, char', limit, result, A.SyntaxError);
      return Some(A.SyntaxError), sp, state, char', next;
    }
    if action.Shift? {
      Shifted(s, ctx, n, char', action.to);
      return None, yyssp + 1, action.to, YYEMPTY, A.AfterShift(n, action.to);
    }
    var ok;
    ok, sp, state := Reduce(ctx, yyss, yyssp, action.rule, A.NextSymbol(m.toks), n);
    if !ok {
      StoppedHere(s, ctx, n, char', limit, result, A.TypeError);
      return Some(A.TypeError), sp, state, char', next;
    }
    next := A.AfterReduce(n, action.rule, ctx.Vals());
    Reduced(s, ctx.lexer, n, next, char');
    verdict := None;
  }

  /** One round of the parser's loop; `verdict` is how the run has ended, if it has. */
  method Round(ctx: TokenizerLexer, limit: nat, yyss: array<int>, yyssp: nat, yystate: int, yychar: int,
               ghost s: string, ghost m: A.Machine, ghost result: A.Result)
    returns (verdict: Option<A.Outcome>, sp: nat, state: int, char': int, ghost next: A.Machine)
    requires yyss.Length == limit && yyssp < limit && m.states == yyss[..yyssp] + [yystate]
    requires Together(s, ctx, m, yychar, limit, result)
    modifies yyss, ctx`stack, ctx`owned, ctx.owned, ctx.lexer, ctx.lexer.buffer, ctx.lexer.input`pos
    ensures ctx.lexer.input == old(ctx.lexer.input)
    ensures ctx.lexer.buffer == old(ctx.lexer.buffer) || fresh(ctx.lexer.buffer)
    ensures fresh(ctx.owned - old(ctx.owned))
    ensures verdict.Some? ==> Ended(s, ctx, verdict.value, result)
    ensures verdict.None? ==>
      && sp < limit && next.states == yyss[..sp] + [state]
      && Together(s, ctx, next, char', limit, result)
      && A.Decreases(m, next)
  {
    hide A.Run, A.Step, A.IsPath, A.TotalWeight, A.Action, A.Effects, A.Goto, A.RuleLength, A.Potential;
    hide T.TableAction, T.TableGoto, T.Translate, Scanned, Leftover, Lexer.Paused, TokenizerLexer.Built,
            TokenizerLexer.Vals;
    sp, state, char', next := yyssp, yystate, yychar, m;
    yyss[yyssp] := yystate;
    assert yyss[..yyssp + 1] == m.states;
    if limit - 1 <= yyssp {
      Exhausted(m, limit);
      StoppedHere(s, ctx, m, yychar, limit, result, A.MemoryExhausted);
      return Some(A.MemoryExhausted), sp, state, char', next;
    }
    if yystate == T.YYFINAL {
      Finished(m, limit);
      StoppedHere(s, ctx, m, yychar, limit, result, A.Accepted);
      return Some(A.Accepted), sp, state, char', next;
    }
    StateInRange(m);
    var yytoken := 0;
    A.TablesAreLalr(yystate, 0);
    if T.YYPACT[yystate] != T.YYPACT_NINF {
      char' := Lookahead(ctx, yychar, s, m);
      yytoken := T.Translate(char');
    }
    ghost var n := A.Consulted(m);
    ActionFound(yystate, yytoken, A.NextSymbol(m.toks));
    var action := T.TableAction(yystate, yytoken);
    verdict, sp, state, char', next := Perform(ctx, limit, yyss, yyssp, action, char', s, m, n, result);
  }

  lemma TogetherAtStart(ctx: TokenizerLexer, limit: nat) returns (result: A.Result)
    requires ctx.Built() && ctx.stack == []
    requires ctx.lexer.Paused() && ctx.lexer.Resting()
    ensures var s := ctx.lexer.rest; var m := A.Initial(Tokens(s));
      A.Valid(m) && result == A.Run(m, limit) && Together(s, ctx, m, YYEMPTY, limit, result)
  {
    var s := ctx.lexer.rest;
    InitialValid(Tokens(s));
    assert Behind(s, s) && ctx.Vals() == [];
    result := A.Run(A.Initial(Tokens(s)), limit);
  }

  /** The parser's loop.  Errors are thrown by the program, and so end the loop. */
  method Loop(ctx: TokenizerLexer, limit: nat, yyss: array<int>, ghost s: string, ghost initial: A.Machine,
          ghost result: A.Result)
    returns (outcome: A.Outcome)
    requires yyss.Length == limit > 0 && initial.states == [0]
    requires Together(s, ctx, initial, YYEMPTY, limit, result)
    modifies yyss, ctx`stack, ctx`owned, ctx.owned, ctx.lexer, ctx.lexer.buffer, ctx.lexer.input`pos
    ensures ctx.lexer.input == old(ctx.lexer.input)
    ensures ctx.lexer.buffer == old(ctx.lexer.buffer) || fresh(ctx.lexer.buffer)
    ensures fresh(ctx.owned - old(ctx.owned))
    ensures Ended(s, ctx, outcome, result)
  {
    hide Together, Ended, A.Potential;
    var yyssp: nat := 0;
    var yystate := 0;
    var yychar := YYEMPTY;
    ghost var m := initial;
    while true
      invariant yyssp < limit && m.states == yyss[..yyssp] + [yystate]
      invariant Together(s, ctx, m, yychar, limit, result)
      invariant fresh(ctx.owned - old(ctx.owned))
      invariant ctx.lexer.input == old(ctx.lexer.input)
      invariant ctx.lexer.buffer == old(ctx.lexer.buffer) || fresh(ctx.lexer.buffer)
      decreases |m.toks|, A.Measure(m.states)
    {
      var verdict;
      verdict, yyssp, yystate, yychar, m := Round(ctx, limit, yyss, yyssp, yystate, yychar, s, m, result);
      if verdict.Some? { return verdict.value; }
    }
  }

  /** The parser, on the tokens that the scanner has to read. */
  method YyParse(ctx: TokenizerLexer, limit: nat) returns (outcome: A.Outcome)
    requires limit > 0
    requires ctx.Built() && ctx.stack == []
    requires ctx.lexer.Paused() && ctx.lexer.Resting()
    modifies ctx`stack, ctx`owned, ctx.owned, ctx.lexer, ctx.lexer.buffer, ctx.lexer.input`pos
    ensures ctx.lexer.input == old(ctx.lexer.input)
    ensures ctx.lexer.buffer == old(ctx.lexer.buffer) || fresh(ctx.lexer.buffer)
    ensures fresh(ctx.owned - old(ctx.owned))
    ensures var s := old(ctx.lexer.rest); var m := A.Initial(Tokens(s));
      A.Valid(m) && Ended(s, ctx, outcome, A.Run(m, limit))
  {
    var yyss := new int[limit];
    ghost var s := ctx.lexer.rest;
    ghost var m := A.Initial(Tokens(s));
    ghost var result := TogetherAtStart(ctx, limit);
    outcome := Loop(ctx, limit, yyss, s, m, result);
  }

  /** Runs the parser and gives the stream back what has been buffered beyond the last token that
      was asked for, whether the parser returns or throws. */
  method Parse(ctx: TokenizerLexer, limit: nat) returns (outcome: A.Outcome)
    requires limit > 0
    requires ctx.Built() && ctx.stack == []
    requires ctx.lexer.Paused() && ctx.lexer.Resting() && !ctx.lexer.input.bad
    modifies ctx`stack, ctx`owned, ctx.owned, ctx.lexer, ctx.lexer.buffer, ctx.lexer.input
    ensures ctx.lexer.input == old(ctx.lexer.input) && !ctx.lexer.input.bad && ctx.lexer.input.Valid()
    ensures ctx.lexer.Paused() && fresh(ctx.lexer.buffer) && fresh(ctx.owned - old(ctx.owned))
    ensures ctx.Built()
    ensures var s := old(ctx.lexer.rest); var m := A.Initial(Tokens(s));
      && A.Valid(m)
      && var r := A.Run(m, limit);
      && outcome == r.outcome
      && (outcome == A.Accepted ==> ctx.Vals() == r.vals)
      && ctx.lexer.input.data[ctx.lexer.input.pos..] == Leftover(s, r)
  {
    outcome := YyParse(ctx, limit);
    ctx.lexer.SyncBackToStream();
  }

  /** What the root holds after a parse tree has been accepted. */
  function RootOf(e: Exp): Json {
    if e.head.VariableTok? then TreeOf(e) else EMPTY_OBJECT
  }

  /** The outcome of parsing `s`, and what the root holds then: it is accepted exactly if a well-headed parse
      tree that fits the stack yields its tokens, and then the root holds that tree's value; a syntax error
      means that there is no derivation; and the actions never run out of values. */
  ghost predicate IsParse(s: string, limit: nat, outcome: A.Outcome, root: Json) {
    && (outcome == A.Accepted <==> exists e: Exp :: Yield(e) == Tokens(s) && Fits(e, 1, limit))
    && (forall e: Exp :: Yield(e) == Tokens(s) && outcome == A.Accepted ==> root == RootOf(e))
    && (outcome == A.SyntaxError ==> !Derives(Tokens(s)))
    && outcome != A.StackUnderflow
  }

  /** Parses one expression from a stream.  It is accepted exactly when a well-headed parse tree that
      fits the stack yields its tokens; then the result is the tree's value, and the stream has been
      read to its end. */
  method FunctionalParse(parser: TokenizerLexer, input: InputStream, limit: nat) returns (outcome: A.Outcome,
          root: JsonObject)
    requires limit > 0 && input.Valid() && !input.bad
    modifies parser, parser.lexer, input
    ensures input.Valid() && !input.bad && fresh(root)
    ensures var s := input.data[old(input.pos)..];
      && IsParse(s, limit, outcome, root.Value())
      && (outcome == A.Accepted ==> input.pos == |input.data|)
      && A.Valid(A.Initial(Tokens(s))) && outcome == A.Run(A.Initial(Tokens(s)), limit).outcome
      && input.data[input.pos..] == Leftover(s, A.Run(A.Initial(Tokens(s)), limit))
  {
    ghost var s := input.data[input.pos..];
    hide *;
    root := new JsonObject();
    parser.SwitchRoots(root);
    parser.lexer.SwitchStreams(input);
    outcome := Parse(parser, limit);
    ParseMeans(parser, s, outcome, limit);
    assert outcome == A.Accepted ==> |input.data[input.pos..]| == 0;
  }

  /** What the outcome of a parse of `s` says about the grammar. */
  lemma ParseMeans(ctx: TokenizerLexer, s: string, outcome: A.Outcome, limit: nat)
    requires A.Valid(A.Initial(Tokens(s))) && outcome == A.Run(A.Initial(Tokens(s)), limit).outcome
    requires ctx.Built() && ctx.base == EMPTY_OBJECT
    requires outcome == A.Accepted ==> ctx.Vals() == A.Run(A.Initial(Tokens(s)), limit).vals
    ensures IsParse(s, limit, outcome, ctx.root.Value())
    ensures outcome == A.Accepted ==> Leftover(s, A.Run(A.Initial(Tokens(s)), limit)) == ""
  {
    var toks := Tokens(s);
    hide A.Run, A.Valid, Tokens, Yield, TreeOf, WellHeaded;
    AcceptsExactlyTheGrammar(toks, limit);
    SyntaxErrorsAreNotDerived(toks, limit);
    NeverUnderflows(A.Initial(toks), limit);
    if outcome == A.Accepted {
      forall e: Exp | Yield(e) == toks
        ensures ctx.root.Value() == RootOf(e) && Leftover(s, A.Run(A.Initial(toks), limit)) == ""
      {
        AcceptedTree(e, limit);
        assert ctx.Vals() == [TreeOf(e)];
        RootIsTree(ctx, e);
      }
    }
  }

  /** The same if there has been something in the root before: a tree's functor takes the place of the old one,
      and its parameters come behind the old ones. */
  function RootOver(base: Json, e: Exp): Json
    requires base.Obj?
  {
    if e.head.VariableTok? then Obj(TreeOf(e).functor, Joined(base.params, TreeOf(e).params)) else base
  }

  lemma RootIsTree(ctx: TokenizerLexer, e: Exp)
    requires ctx.Built() && ctx.Vals() == [TreeOf(e)] && WellHeaded(e)
    ensures ctx.root.Value() == RootOver(ctx.base, e)
    ensures ctx.base == EMPTY_OBJECT ==> ctx.root.Value() == RootOf(e)
  {
    assert |ctx.stack| == 1 && ctx.ViewOf(ctx.stack[0]) == ctx.Vals()[0];
    BeyondIsRest(ctx.base.params, ctx.root.params);
  }
}
