/** The tables of the generated parser and the way its loop looks actions up in them. */
module ParserTables {

  const YYFINAL := 6
  const YYLAST := 13
  const YYNTOKENS := 9
  const YYNSTATES := 18
  const YYPACT_NINF := -9

  const YYPACT: seq<int> := [7, -9, -9, -9, 4, 2, -9, -2, -9, 7, -9, 6, -9, -2, -9, -2, -9, -9]
  const YYDEFACT: seq<int> := [0, 10, 11, 12, 0, 3, 1, 5, 2, 0, 6, 0, 8, 5, 4, 5, 7, 9]
  const YYPGOTO: seq<int> := [-9, 0, -9, -8, -9, -9, -9]
  const YYDEFGOTO: seq<int> := [0, 10, 8, 11, 13, 15, 5]
  const YYTABLE: seq<int> := [4, 1, 2, 3, 6, 16, 9, 17, 7, 12, 1, 2, 3, 14]
  const YYCHECK: seq<int> := [0, 3, 4, 5, 0, 13, 8, 15, 6, 9, 3, 4, 5, 7]
  const YYR1: seq<int> := [0, 9, 10, 11, 11, 12, 13, 12, 14, 12, 15, 15, 15]
  const YYR2: seq<int> := [0, 2, 2, 0, 3, 0, 0, 3, 0, 4, 1, 1, 1]

  // Token kinds returned by the scanner.
  const YYEOF := 0
  const YYERROR := 256
  const STRING := 258
  const NUMBER := 259
  const VARIABLE := 260
  const LPAREN := 261
  const RPAREN := 262
  const COMMA := 263

  // Grammar symbols, as the tables number them.
  const SYM_EOF := 0
  const SYM_ERROR := 1
  const SYM_UNDEF := 2
  const SYM_STRING := 3
  const SYM_NUMBER := 4
  const SYM_VARIABLE := 5
  const SYM_LPAREN := 6
  const SYM_RPAREN := 7
  const SYM_COMMA := 8

  /** The symbol that a token kind stands for. */
  function Translate(yychar: int): (symbol: nat)
    ensures symbol < YYNTOKENS
  {
    if yychar == YYEOF then SYM_EOF
    else if yychar == YYERROR then SYM_ERROR
    else if STRING <= yychar <= COMMA then yychar - 255
    else SYM_UNDEF
  }

  datatype Action = Shift(to: int) | Reduce(rule: int) | Reject

  function DefaultAction(state: nat): Action
    requires state < YYNSTATES
  {
    if YYDEFACT[state] == 0 then Reject else Reduce(YYDEFACT[state])
  }

  /** What the tables say in `state`, with `symbol` as lookahead where one is consulted. */
  function TableAction(state: nat, symbol: nat): Action
    requires state < YYNSTATES
  {
    var yyn := YYPACT[state];
    if yyn == YYPACT_NINF then DefaultAction(state)
    else if yyn + symbol < 0 || YYLAST < yyn + symbol || YYCHECK[yyn + symbol] != symbol then DefaultAction(state)
    else if YYTABLE[yyn + symbol] <= 0 then Reduce(-YYTABLE[yyn + symbol])
    else Shift(YYTABLE[yyn + symbol])
  }

  /** The state entered after reducing by `rule` when `state` is uncovered. */
  function TableGoto(rule: nat, state: nat): int
    requires 0 < rule <= 12 && state < YYNSTATES
  {
    var yylhs := YYR1[rule] - YYNTOKENS;
    var yyi := YYPGOTO[yylhs] + state;
    if 0 <= yyi <= YYLAST && YYCHECK[yyi] == state then YYTABLE[yyi] else YYDEFGOTO[yylhs]
  }
}
