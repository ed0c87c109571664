/** The LALR(1) automaton of the grammar as a machine on values.

    `Action` and `Goto` are the automaton written out by hand from the grammar; `TablesAreLalr`
    and `GotosAreLalr` say that the generated tables encode exactly it.  `Run` is what `YyParse`
    (module FunctionalParser) is proved to compute. */
module Automaton {
  import opened Grammar
  import opened Json
  import opened Option
  import T = ParserTables

  predicate IsState(s: int) { 0 <= s < T.YYNSTATES }

  /** An expression can come next, or a parameter list. */
  predicate OpensExp(s: int) {
    s == 0 || s == 9 || OpensList(s)
  }

  predicate OpensList(s: int) {
    s == 7 || s == 13 || s == 15
  }

  /** A head has just been shifted. */
  predicate IsHeadState(s: int) {
    s == 1 || s == 2 || s == 3
  }

  predicate Consults(state: int) {
    OpensExp(state) || state == 4 || state == 5 || state == 11
  }

  function ShiftHead(symbol: nat, otherwise: T.Action): T.Action {
    if symbol == T.SYM_STRING then T.Shift(1)
    else if symbol == T.SYM_NUMBER then T.Shift(2)
    else if symbol == T.SYM_VARIABLE then T.Shift(3)
    else otherwise
  }

  /** What the automaton does in each state. */
  function Action(state: int, symbol: nat): T.Action {
    match state
    case 0 => ShiftHead(symbol, T.Reject)
    case 1 => T.Reduce(10)
    case 2 => T.Reduce(11)
    case 3 => T.Reduce(12)
    case 4 => if symbol == T.SYM_EOF then T.Shift(6) else T.Reject
    case 5 => if symbol == T.SYM_LPAREN then T.Shift(7) else T.Reduce(3)
    case 6 => T.Reduce(1)
    case 8 => T.Reduce(2)
    case 9 => ShiftHead(symbol, T.Reject)
    case 10 => T.Reduce(6)
    case 11 => if symbol == T.SYM_RPAREN then T.Shift(14) else T.Reject
    case 12 => T.Reduce(8)
    case 14 => T.Reduce(4)
    case 16 => T.Reduce(7)
    case 17 => T.Reduce(9)
    case _ => ShiftHead(symbol, if symbol == T.SYM_COMMA then T.Shift(9) else T.Reduce(5))
  }

  function Goto(rule: nat, state: int): int {
    match rule
    case 2 => if state == 0 then 4 else if state == 9 then 12 else 10
    case 3 => 8
    case 4 => 8
    case 5 => if state == 13 then 16 else if state == 15 then 17 else 11
    case 7 => if state == 13 then 16 else if state == 15 then 17 else 11
    case 9 => if state == 13 then 16 else if state == 15 then 17 else 11
    case 6 => 13
    case 8 => 15
    case _ => 5
  }

  /** The compressed tables decode to the automaton, in every state and for every symbol. */
  lemma TablesAreLalr(state: nat, symbol: nat)
    requires state < T.YYNSTATES && symbol < T.YYNTOKENS
    ensures T.TableAction(state, symbol) == Action(state, symbol)
    ensures T.YYPACT[state] == T.YYPACT_NINF <==> !Consults(state)
  {
    assert T.YYPACT[state] in {7, -9, 4, 2, -2, 6};
  }

  /** Whether an entry `t` can stand directly above an entry `s`. */
  predicate Edge(s: int, t: int) {
    match s
    case 0 => IsHeadState(t) || t == 4 || t == 5
    case 4 => t == 6
    case 5 => t == 7 || t == 8
    case 7 => IsHeadState(t) || t == 5 || t == 9 || t == 10 || t == 11
    case 9 => IsHeadState(t) || t == 5 || t == 12
    case 10 => t == 13
    case 11 => t == 14
    case 12 => t == 15
    case 13 => IsHeadState(t) || t == 5 || t == 9 || t == 10 || t == 16
    case 15 => IsHeadState(t) || t == 5 || t == 9 || t == 10 || t == 17
    case _ => false
  }

  /** The goto tables decode to the automaton's gotos wherever a reduction can ask for one. */
  lemma GotosAreLalr(rule: nat, state: nat)
    requires 2 <= rule <= 12 && state < T.YYNSTATES
    requires Edge(state, Goto(rule, state))
    ensures T.TableGoto(rule, state) == Goto(rule, state)
  {
  }

  // ----- The machine ---------------------------------------------------------------------

  /** `states` is the state stack, bottom first; `read` says that `toks[0]` (or the end of the
      input) has been taken as lookahead; `last` is the token shifted last; `vals` is the stack of
      the actions' values. */
  datatype Machine = Machine(states: seq<int>, read: bool, toks: seq<Token>, last: Option<Token>, vals: seq<Json>)

  /** `StackUnderflow` is an action popping or reading an empty value stack; `TypeError` is a
      parameter added to a value that is not an object. */
  datatype Outcome = Accepted | SyntaxError | MemoryExhausted | TypeError | StackUnderflow

  /** How a run ends: the values left, the tokens that the scanner has not been asked for, and
      whether it has been asked for more than there are. */
  datatype Result = Result(outcome: Outcome, vals: seq<Json>, unread: seq<Token>, ended: bool)

  datatype StepResult = Continue(next: Machine) | Stop(result: Result)

  datatype Effect = Values(vals: seq<Json>) | Failed(outcome: Outcome)

  function Initial(toks: seq<Token>): Machine {
    Machine([0], false, toks, None, [])
  }

  function SymbolOf(t: Token): nat {
    match t
    case StringTok(_) => T.SYM_STRING
    case NumberTok(_) => T.SYM_NUMBER
    case VariableTok(_) => T.SYM_VARIABLE
    case LParen => T.SYM_LPAREN
    case RParen => T.SYM_RPAREN
    case Comma => T.SYM_COMMA
  }

  function NextSymbol(toks: seq<Token>): nat {
    if toks == [] then T.SYM_EOF else SymbolOf(toks[0])
  }

  function Top<X>(s: seq<X>): X
    requires s != []
  {
    s[|s| - 1]
  }

  function Pop<X>(s: seq<X>, n: nat): seq<X>
    requires n <= |s|
  {
    s[..|s| - n]
  }

  function Stopped(m: Machine, outcome: Outcome): StepResult
    requires m.states != []
  {
    Stop(Result(outcome, m.vals, if m.read && m.toks != [] then m.toks[1..] else m.toks,
                Top(m.states) == T.YYFINAL || (m.read && m.toks == [])))
  }

  /** What the action of `rule` does to the value stack, given the text of the last token. */
  function Effects(rule: int, text: string, vals: seq<Json>): Effect {
    if rule == 6 || rule == 8 then
      if |vals| < 2 then Failed(StackUnderflow)
      else if !vals[|vals| - 2].Obj? then Failed(TypeError)
      else Values(Pop(vals, 2) + [AppendParam(vals[|vals| - 2], Top(vals))])
    else if rule == 10 then Values(vals + [Str(text)])
    else if rule == 11 then Values(vals + [NumberValue(text)])
    else if rule == 12 then Values(vals + [Obj(Some(text), Absent)])
    else Values(vals)
  }

  function LastText(m: Machine): string {
    if m.last.Some? then TextOf(m.last.value) else ""
  }

  /** Path of the automaton from its start state. */
  predicate IsPath(states: seq<int>) {
    && states != []
    && states[0] == 0
    && (forall i {:trigger states[i]} :: 0 <= i < |states| ==> IsState(states[i]))
    && (forall i {:trigger Linked(states, i)} :: 0 < i < |states| ==> Linked(states, i))
  }

  predicate Linked(states: seq<int>, i: nat)
    requires 0 < i < |states|
  {
    Edge(states[i - 1], states[i])
  }

  /** Values that an entry accounts for: heads and expressions own one, and a mid-rule symbol takes
      back the one of the expression below it. */
  function Weight(s: int): int {
    if s == 4 || s == 5 || s == 10 || s == 12 then 1 else if s == 13 || s == 15 then -1 else 0
  }

  function TotalWeight(states: seq<int>): int {
    if states == [] then 0 else TotalWeight(Pop(states, 1)) + Weight(Top(states))
  }

  /** A head has just been shifted, and nothing has been scanned since. */
  predicate HeadShifted(m: Machine)
    requires m.states != []
  {
    var top := Top(m.states);
    IsHeadState(top) ==>
      && !m.read
      && m.last.Some?
      && SymbolOf(m.last.value) == top + 2
  }

  predicate Valid(m: Machine) {
    && m.states != []
    && IsPath(m.states)
    && TotalWeight(m.states) == |m.vals|
    && HeadShifted(m)
  }

  /** The number of entries that a reduction by `rule` pops. */
  function RuleLength(rule: int): nat {
    match rule
    case 2 => 2
    case 4 => 3
    case 7 => 3
    case 9 => 4
    case 10 => 1
    case 11 => 1
    case 12 => 1
    case _ => 0
  }

  function AfterReduce(m: Machine, rule: int, vals: seq<Json>): Machine
    requires RuleLength(rule) < |m.states| && rule >= 0
  {
    var uncovered := Pop(m.states, RuleLength(rule));
    m.(states := uncovered + [Goto(rule, Top(uncovered))], vals := vals)
  }

  function AfterShift(m: Machine, to: int): Machine {
    Machine(m.states + [to], false,
            if m.toks == [] then [] else m.toks[1..],
            if m.toks == [] then m.last else Some(m.toks[0]),
            m.vals)
  }

  function Consulted(m: Machine): Machine
    requires m.states != []
  {
    if Consults(Top(m.states)) then m.(read := true) else m
  }

  /** The entries on top of the stack that `rule` reduces, and what lies below them. */
  predicate Handle(rule: int, states: seq<int>)
    requires states != []
  {
    var n := |states|;
    match rule
    case 2 => n > 2 && states[n - 2] == 5 && OpensExp(states[n - 3])
    case 3 => states[n - 1] == 5
    case 4 => n > 3 && states[n - 2] == 11 && states[n - 3] == 7 && states[n - 4] == 5
    case 5 => OpensList(states[n - 1])
    case 6 => states[n - 1] == 10
    case 7 => n > 3 && states[n - 2] == 13 && states[n - 3] == 10 && OpensList(states[n - 4])
    case 8 => states[n - 1] == 12
    case 9 => n > 4 && states[n - 2] == 15 && states[n - 3] == 12 && states[n - 4] == 9 && OpensList(states[n - 5])
    case 10 => n > 1 && states[n - 1] == 1 && OpensExp(states[n - 2])
    case 11 => n > 1 && states[n - 1] == 2 && OpensExp(states[n - 2])
    case 12 => n > 1 && states[n - 1] == 3 && OpensExp(states[n - 2])
    case _ => false
  }

  /** The stack always holds the right-hand side of the rule that is being reduced. */
  lemma ReductionHasHandle(states: seq<int>, symbol: nat, rule: int)
    requires IsPath(states) && Top(states) != T.YYFINAL
    requires Action(Top(states), symbol) == T.Reduce(rule)
    ensures Handle(rule, states) && RuleLength(rule) < |states|
  {
    var n := |states|;
    var top := states[n - 1];
    if n > 1 { assert Linked(states, n - 1); }
    if n > 2 { assert Linked(states, n - 2); }
    if n > 3 { assert Linked(states, n - 3); }
    if n > 4 { assert Linked(states, n - 4); }
  }

  /** One round of the loop: check the stack, consult the lookahead where the state asks for it,
      and shift or reduce. */
  function Step(m: Machine, limit: nat): StepResult
    requires Valid(m)
  {
    var top := Top(m.states);
    if limit <= |m.states| then Stopped(m, MemoryExhausted)
    else if top == T.YYFINAL then Stopped(m, Accepted)
    else
      var n := Consulted(m);
      match Action(top, NextSymbol(n.toks))
      case Reject => Stopped(n, SyntaxError)
      case Shift(to) => Continue(AfterShift(n, to))
      case Reduce(rule) =>
        ReductionHasHandle(m.states, NextSymbol(n.toks), rule);
        match Effects(rule, LastText(n), n.vals)
        case Failed(outcome) => Stopped(n, outcome)
        case Values(vals) => Continue(AfterReduce(n, rule, vals))
  }

  /** Reductions between two shifts use up this potential. */
  function Potential(s: int): nat {
    match s
    case 1 => 13
    case 2 => 13
    case 3 => 13
    case 4 => 5
    case 5 => 12
    case 7 => 5
    case 8 => 7
    case 10 => 10
    case 12 => 10
    case 13 => 5
    case 15 => 5
    case _ => 0
  }

  function Measure(states: seq<int>): nat
    requires states != []
  {
    4 * |states| + Potential(Top(states))
  }

  predicate Decreases(m: Machine, n: Machine) {
    && m.states != [] && n.states != []
    && (|n.toks| < |m.toks| || (|n.toks| == |m.toks| && Measure(n.states) < Measure(m.states)))
  }

  /** The least number of values there can be under and at a state. */
  function LeastWeight(s: int): int {
    if s == 0 || IsHeadState(s) then 0 else if s == 10 || s == 12 then 2 else 1
  }

  lemma {:induction false} WeightBound(states: seq<int>)
    requires IsPath(states)
    ensures TotalWeight(states) >= LeastWeight(Top(states))
    ensures |states| == 2 && Top(states) == 4 ==> TotalWeight(states) == 1
    decreases |states|
  {
    if |states| > 1 {
      var below := Pop(states, 1);
      PoppedPath(states, 1);
      WeightBound(below);
      assert Linked(states, |states| - 1);
    } else {
      assert Pop(states, 1) == [];
    }
  }

  lemma PushedWeight(states: seq<int>, s: int)
    ensures TotalWeight(states + [s]) == TotalWeight(states) + Weight(s)
  {
    assert Pop(states + [s], 1) == states;
  }

  lemma PushedPath(states: seq<int>, s: int)
    requires IsPath(states) && IsState(s) && Edge(Top(states), s)
    ensures IsPath(states + [s])
  {
    var above := states + [s];
    forall i | 0 < i < |above| ensures Linked(above, i) {
      if i < |states| { assert Linked(states, i); }
    }
  }

  lemma {:induction false} PoppedPath(states: seq<int>, n: nat)
    requires IsPath(states) && n < |states|
    ensures IsPath(Pop(states, n))
  {
    var below := Pop(states, n);
    forall i | 0 < i < |below| ensures Linked(below, i) {
      assert Linked(states, i);
    }
  }

  lemma TopWeights(states: seq<int>, n: nat)
    requires n <= |states| && n <= 4
    ensures TotalWeight(states) == TotalWeight(Pop(states, n)) + TopWeight(states, n)
  {
    if n == 0 {
      assert Pop(states, 0) == states;
    } else {
      TopWeights(states, n - 1);
      assert Pop(Pop(states, n - 1), 1) == Pop(states, n);
    }
  }

  /** The weight of the `n` topmost entries. */
  function TopWeight(states: seq<int>, n: nat): int
    requires n <= |states|
  {
    if n == 0 then 0 else TopWeight(states, n - 1) + Weight(states[|states| - n])
  }

  /** A handle weighs as much as the symbol that replaces it: one for `exp`, nothing otherwise. */
  lemma HandleWeight(states: seq<int>, rule: int)
    requires states != [] && Handle(rule, states) && RuleLength(rule) < |states|
    requires rule == 4 ==> Top(states) == 14
    requires rule == 2 ==> Top(states) == 8
    requires rule == 7 ==> Top(states) == 16
    requires rule == 9 ==> Top(states) == 17
    ensures TotalWeight(states) == TotalWeight(Pop(states, RuleLength(rule))) + if rule == 2 then 1 else 0
  {
    var n := RuleLength(rule);
    TopWeights(states, n);
    assert TopWeight(states, 0) == 0;
    if n > 0 { assert TopWeight(states, 1) == Weight(states[|states| - 1]); }
    if n > 1 { assert TopWeight(states, 2) == TopWeight(states, 1) + Weight(states[|states| - 2]); }
    if n > 2 { assert TopWeight(states, 3) == TopWeight(states, 2) + Weight(states[|states| - 3]); }
    if n > 3 { assert TopWeight(states, 4) == TopWeight(states, 3) + Weight(states[|states| - 4]); }
  }

  /** The uncovered state has a goto for the reduced symbol, and reducing uses up potential. */
  lemma HandleHasGoto(states: seq<int>, symbol: nat, rule: int)
    requires states != [] && Top(states) != T.YYFINAL && rule >= 0
    requires Action(Top(states), symbol) == T.Reduce(rule)
    requires Handle(rule, states) && RuleLength(rule) < |states|
    ensures var below := states[|states| - 1 - RuleLength(rule)];
      var s := Goto(rule, below);
      && IsState(s) && s > 3 && Edge(below, s)
      && 4 * (1 - RuleLength(rule)) + Potential(s) < Potential(Top(states))
  {
  }

  /** An action pushes a value, or takes one away, as the symbol it reduces to requires. */
  lemma EffectWeight(rule: int, state: int, text: string, vals: seq<Json>, after: seq<Json>)
    requires 2 <= rule <= 12
    requires Effects(rule, text, vals) == Values(after)
    ensures |after| + (if rule == 2 then 1 else 0) == |vals| + Weight(Goto(rule, state))
  {
  }

  /** Replacing `n` entries by `s`, where the automaton has that edge, leaves a path. */
  lemma ReplacedPath(states: seq<int>, n: nat, s: int)
    requires IsPath(states) && n < |states|
    requires IsState(s) && Edge(states[|states| - 1 - n], s)
    ensures IsPath(Pop(states, n) + [s])
    ensures TotalWeight(Pop(states, n) + [s]) == TotalWeight(Pop(states, n)) + Weight(s)
  {
    PoppedPath(states, n);
    PushedPath(Pop(states, n), s);
    PushedWeight(Pop(states, n), s);
  }

  lemma ReducedStates(states: seq<int>, symbol: nat, rule: int)
    requires IsPath(states) && Top(states) != T.YYFINAL
    requires Action(Top(states), symbol) == T.Reduce(rule)
    ensures 2 <= rule <= 12 && RuleLength(rule) < |states|
    ensures var s := Goto(rule, states[|states| - 1 - RuleLength(rule)]);
      var after := Pop(states, RuleLength(rule)) + [s];
      && s > 3
      && IsPath(after)
      && TotalWeight(after) + (if rule == 2 then 1 else 0) == TotalWeight(states) + Weight(s)
      && Measure(after) < Measure(states)
  {
    ReductionHasHandle(states, symbol, rule);
    HandleHasGoto(states, symbol, rule);
    HandleWeight(states, rule);
    ReplacedPath(states, RuleLength(rule), Goto(rule, states[|states| - 1 - RuleLength(rule)]));
  }

  lemma ReduceKeepsValid(m: Machine, symbol: nat, rule: int, vals: seq<Json>)
    requires Valid(m) && Top(m.states) != T.YYFINAL
    requires Action(Top(m.states), symbol) == T.Reduce(rule)
    requires Effects(rule, LastText(m), m.vals) == Values(vals)
    ensures 2 <= rule <= 12 && RuleLength(rule) < |m.states|
    ensures Valid(AfterReduce(m, rule, vals))
    ensures Measure(AfterReduce(m, rule, vals).states) < Measure(m.states)
  {
    var states := m.states;
    ReducedStates(states, symbol, rule);
    var below := states[|states| - 1 - RuleLength(rule)];
    assert Top(Pop(states, RuleLength(rule))) == below;
    var after := AfterReduce(m, rule, vals);
    assert after.states == Pop(states, RuleLength(rule)) + [Goto(rule, below)];
    assert IsPath(after.states);
    assert |vals| + (if rule == 2 then 1 else 0) == |m.vals| + Weight(Goto(rule, below)) by {
      EffectWeight(rule, below, LastText(m), m.vals, vals);
    }
    assert TotalWeight(after.states) == |vals|;
    assert HeadShifted(after);
  }

  lemma ShiftedStates(states: seq<int>, symbol: nat, to: int)
    requires IsPath(states) && Top(states) != T.YYFINAL
    requires Action(Top(states), symbol) == T.Shift(to)
    ensures IsPath(states + [to]) && TotalWeight(states + [to]) == TotalWeight(states)
    ensures 1 <= to <= 3 ==> symbol == to + 2
    ensures symbol == T.SYM_EOF ==> to == 6 && Top(states) == 4
  {
    PushedPath(states, to);
    PushedWeight(states, to);
  }

  lemma ShiftKeepsValid(m: Machine, to: int)
    requires Valid(m) && Top(m.states) != T.YYFINAL
    requires Action(Top(m.states), NextSymbol(m.toks)) == T.Shift(to)
    ensures Valid(AfterShift(m, to)) && Decreases(m, AfterShift(m, to))
  {
    ShiftedStates(m.states, NextSymbol(m.toks), to);
    assert HeadShifted(AfterShift(m, to));
  }

  /** Consulting the lookahead is only done where no head is waiting for its action. */
  lemma ConsultedValid(m: Machine)
    requires Valid(m)
    ensures Valid(Consulted(m))
  {
  }

  /** Values an action needs are there: actions never pop or read an empty value stack. */
  lemma NoUnderflow(m: Machine, symbol: nat, rule: int)
    requires Valid(m) && Top(m.states) != T.YYFINAL
    requires Action(Top(m.states), symbol) == T.Reduce(rule)
    ensures Effects(rule, LastText(m), m.vals) != Failed(StackUnderflow)
  {
    WeightBound(m.states);
    ReductionHasHandle(m.states, symbol, rule);
  }

  /** Rounds keep the machine valid, use up tokens or potential, and never underflow the values. */
  lemma StepKeepsValid(m: Machine, limit: nat)
    requires Valid(m)
    ensures var r := Step(m, limit);
      && (r.Continue? ==> Valid(r.next) && Decreases(m, r.next))
      && (r.Stop? ==> r.result.outcome != StackUnderflow)
  {
    var top := Top(m.states);
    if |m.states| < limit && top != T.YYFINAL {
      var n := Consulted(m);
      ConsultedValid(m);
      var action := Action(top, NextSymbol(n.toks));
      if action.Shift? {
        ShiftKeepsValid(n, action.to);
      } else if action.Reduce? {
        NoUnderflow(n, NextSymbol(n.toks), action.rule);
        var effect := Effects(action.rule, LastText(n), n.vals);
        if effect.Values? {
          ReduceKeepsValid(n, NextSymbol(n.toks), action.rule, effect.vals);
        }
      }
    }
  }

  /** The whole run of the machine. */
  function Run(m: Machine, limit: nat): Result
    requires Valid(m)
    decreases |m.toks|, Measure(m.states)
  {
    StepKeepsValid(m, limit);
    match Step(m, limit)
    case Stop(result) => result
    case Continue(next) => Run(next, limit)
  }
}
