/** The grammar of functional expressions, `gt(integer(0,2),x)`, as parse trees with their yields.
    It is the reference that the table-driven automaton is compared with. */
module Grammar {

  /** The tokens of the language; punctuation carries no text of its own. */
  datatype Token =
    | StringTok(text: string)
    | NumberTok(text: string)
    | VariableTok(text: string)
    | LParen
    | RParen
    | Comma

  /** What the scanner leaves as the matched text after producing the token. */
  function TextOf(t: Token): string {
    match t
    case StringTok(s) => s
    case NumberTok(s) => s
    case VariableTok(s) => s
    case LParen => "("
    case RParen => ")"
    case Comma => ","
  }

  predicate IsHead(t: Token) {
    t.StringTok? || t.NumberTok? || t.VariableTok?
  }

  type Head = t: Token | IsHead(t) witness VariableTok("x")

  // exp: token params
  datatype Exp = Exp(head: Head, params: Params)

  // params: %empty | LPAREN param_list RPAREN
  datatype Params = NoParams | Args(list: ParamList)

  // param_list: %empty | exp param_list | COMMA exp param_list
  datatype ParamList = Nil | Cons(comma: bool, exp: Exp, rest: ParamList)

  /** The token sequence a parse tree derives. */
  function Yield(e: Exp): (ts: seq<Token>)
    ensures |ts| > 0 && ts[0] == e.head
  {
    [e.head] + YieldParams(e.params)
  }

  function YieldParams(p: Params): seq<Token> {
    match p
    case NoParams => []
    case Args(l) => [LParen] + YieldList(l) + [RParen]
  }

  function YieldList(l: ParamList): seq<Token> {
    match l
    case Nil => []
    case Cons(comma, e, rest) => YieldComma(comma) + Yield(e) + YieldList(rest)
  }

  function YieldComma(comma: bool): seq<Token> {
    if comma then [Comma] else []
  }

  /** The grammar derives `ts` from its start symbol. */
  ghost predicate Derives(ts: seq<Token>) {
    exists e: Exp :: Yield(e) == ts
  }

  /** Entries the automaton's stack needs above the entry below the expression. */
  function Height(e: Exp): (h: nat)
    ensures h >= 2
  {
    match e.params
    case NoParams => 2
    case Args(l) => Max(4, 2 + HeightList(l))
  }

  function HeightList(l: ParamList): (h: nat)
    ensures h >= 1
  {
    match l
    case Nil => 1
    case Cons(comma, e, rest) =>
      var c := if comma then 1 else 0;
      Max(c + Height(e), c + 2 + HeightList(rest))
  }

  function Max(a: nat, b: nat): nat {
    if a < b then b else a
  }

  // ----- The grammar is unambiguous -------------------------------------------------------------

  predicate StartsWith(ts: seq<Token>, t: Token) {
    ts != [] && ts[0] == t
  }

  /** What follows the yield of a list does not look like the parameters of the expression before it. */
  lemma ListStart(l: ParamList, r: seq<Token>)
    requires StartsWith(r, RParen)
    ensures match l
      case Nil => StartsWith(YieldList(l) + r, RParen)
      case Cons(comma, e, _) => StartsWith(YieldList(l) + r, if comma then Comma else e.head)
  {
  }

  lemma ListParts(comma: bool, e: Exp, rest: ParamList, r: seq<Token>)
    ensures YieldList(Cons(comma, e, rest)) + r == YieldComma(comma) + (Yield(e) + (YieldList(rest) + r))
  {
  }

  lemma ArgsParts(head: Head, l: ParamList, r: seq<Token>)
    ensures Yield(Exp(head, Args(l))) + r == [head, LParen] + (YieldList(l) + ([RParen] + r))
  {
  }

  lemma SameTail<X>(a: seq<X>, b: seq<X>, c: seq<X>)
    requires a + b == a + c
    ensures b == c
  {
    assert b == (a + b)[|a|..] && c == (a + c)[|a|..];
  }

  /** Two sequences that begin with the yields of two trees, and go on with anything but an opening
      parenthesis, are the same only if both the trees and what follows them are. */
  lemma {:induction false} SameTree(d: Exp, r: seq<Token>, e: Exp, q: seq<Token>)
    requires Yield(d) + r == Yield(e) + q && !StartsWith(r, LParen) && !StartsWith(q, LParen)
    ensures d == e && r == q
    decreases d
  {
    assert d.head == (Yield(d) + r)[0] == (Yield(e) + q)[0] == e.head;
    SecondToken(d, r);
    SecondToken(e, q);
    match (d.params, e.params) {
      case (NoParams, NoParams) =>
        SameTail([d.head], r, q);
      case (Args(l), Args(k)) =>
        ArgsParts(d.head, l, r);
        ArgsParts(e.head, k, q);
        SameTail([d.head, LParen], YieldList(l) + ([RParen] + r), YieldList(k) + ([RParen] + q));
        SameList(l, [RParen] + r, k, [RParen] + q);
        SameTail([RParen], r, q);
      case _ =>
        assert false;
    }
  }

  /** The token behind the head tells whether there are parameters. */
  lemma SecondToken(d: Exp, r: seq<Token>)
    requires !StartsWith(r, LParen)
    ensures |Yield(d) + r| > 1 && (Yield(d) + r)[1] == LParen <==> d.params.Args?
    ensures d.params.NoParams? ==> Yield(d) == [d.head]
  {
  }

  lemma {:induction false} SameList(l: ParamList, r: seq<Token>, k: ParamList, q: seq<Token>)
    requires YieldList(l) + r == YieldList(k) + q && StartsWith(r, RParen) && StartsWith(q, RParen)
    ensures l == k && r == q
    decreases l
  {
    ListStart(l, r);
    ListStart(k, q);
    match (l, k) {
      case (Nil, Nil) =>
        SameTail([], r, q);
      case (Cons(c, d, t), Cons(b, e, u)) =>
        assert c == b;
        ListParts(c, d, t, r);
        ListParts(b, e, u, q);
        SameTail(YieldComma(c), Yield(d) + (YieldList(t) + r), Yield(e) + (YieldList(u) + q));
        ListStart(t, r);
        ListStart(u, q);
        SameTree(d, YieldList(t) + r, e, YieldList(u) + q);
        SameList(t, r, u, q);
      case _ =>
        assert false;
    }
  }
}
