/** The automaton accepts exactly the token sequences that the grammar derives within the stack
    limit, and leaves the tree that the parse tree denotes. */
module ParserCorrectness {
  import opened Grammar
  import opened Json
  import opened Option
  import opened Automaton
  import opened Sequences
  import T = ParserTables

  // ----- Single rounds ---------------------------------------------------------------------

  lemma ShiftRound(m: Machine, limit: nat, to: int)
    requires Valid(m) && |m.states| < limit && Top(m.states) != T.YYFINAL && Consults(Top(m.states))
    requires Action(Top(m.states), NextSymbol(m.toks)) == T.Shift(to)
    ensures Valid(AfterShift(m, to)) && Run(m, limit) == Run(AfterShift(m, to), limit)
  {
    StepKeepsValid(m, limit);
  }

  lemma ReduceRound(m: Machine, limit: nat, rule: int, vals: seq<Json>) returns (n: Machine)
    requires Valid(m) && |m.states| < limit && Top(m.states) != T.YYFINAL
    requires Action(Top(m.states), NextSymbol(m.toks)) == T.Reduce(rule)
    requires Effects(rule, LastText(m), m.vals) == Values(vals)
    ensures RuleLength(rule) < |m.states| && rule >= 0
    ensures n == AfterReduce(Consulted(m), rule, vals)
    ensures Valid(n) && Run(m, limit) == Run(n, limit)
  {
    StepKeepsValid(m, limit);
    ReductionHasHandle(m.states, NextSymbol(m.toks), rule);
    assert 2 <= rule;
    n := AfterReduce(Consulted(m), rule, vals);
  }

  // ----- Completeness: a derived sequence drives the machine through its parse tree ------------

  /** The stack is too small; or a parameter is added to something that cannot have any. */
  predicate Fails(r: Result, headed: bool) {
    r.outcome == MemoryExhausted || (!headed && r.outcome == TypeError)
  }

  predicate EndsExp(rest: seq<Token>) {
    rest == [] || !rest[0].LParen?
  }

  /** `n` is `m` with `s` on its stack and `rest` still to come. */
  predicate Reached(m: Machine, n: Machine, s: int, rest: seq<Token>, vals: seq<Json>) {
    && Valid(n)
    && n.states == m.states + [s]
    && n.toks == rest
    && n.vals == vals
  }

  lemma NoRoom(m: Machine, limit: nat)
    requires Valid(m) && limit <= |m.states|
    ensures Fails(Run(m, limit), true)
  {
  }

  /** The action of a head's rule pushes its value. */
  lemma HeadEffect(t: Token, state: int, vals: seq<Json>)
    requires IsHead(t) && state == SymbolOf(t) - 2
    ensures Action(state, 0) == T.Reduce(state + 9)
    ensures Effects(state + 9, TextOf(t), vals) == Values(vals + [HeadValue(t)])
  {
  }

  /** A head and its action. */
  lemma HeadRuns(m: Machine, limit: nat) returns (n: Machine)
    requires Valid(m) && OpensExp(Top(m.states)) && m.toks != [] && IsHead(m.toks[0])
    ensures Valid(n)
    ensures if |m.states| + 1 < limit
            then Run(m, limit) == Run(n, limit) && Reached(m, n, 5, m.toks[1..], m.vals + [HeadValue(m.toks[0])])
            else Fails(Run(m, limit), true)
  {
    n := m;
    var to := SymbolOf(m.toks[0]) - 2;
    HeadAction(Top(m.states), m.toks[0]);
    HeadEffect(m.toks[0], to, m.vals);
    HeadStates(m, to, m.vals + [HeadValue(m.toks[0])]);
    hide Run, Step, Valid, Effects, Action, AfterReduce, AfterShift, Consults, Goto, HeadValue, Consulted;
    if limit <= |m.states| {
      NoRoom(m, limit);
    } else {
      ShiftRound(m, limit, to);
      var shifted := AfterShift(m, to);
      if |shifted.states| < limit {
        n := ReduceRound(shifted, limit, to + 9, m.vals + [HeadValue(m.toks[0])]);
      } else {
        NoRoom(shifted, limit);
      }
    }
  }

  lemma HeadAction(state: int, t: Token)
    requires OpensExp(state) && IsHead(t)
    ensures Consults(state) && state != T.YYFINAL && Action(state, SymbolOf(t)) == T.Shift(SymbolOf(t) - 2)
  {
  }

  /** The stack after a head and its action. */
  lemma HeadStates(m: Machine, to: int, vals: seq<Json>)
    requires m.states != [] && m.toks != [] && IsHead(m.toks[0]) && to == SymbolOf(m.toks[0]) - 2
    ensures var shifted := AfterShift(m, to);
      && |shifted.states| == |m.states| + 1 && Top(shifted.states) == to && shifted.vals == m.vals
      && LastText(shifted) == TextOf(m.toks[0])
      && to != T.YYFINAL && (forall symbol :: Action(to, symbol) == T.Reduce(to + 9))
      && RuleLength(to + 9) == 1 && Consulted(shifted) == shifted
      && var n := AfterReduce(shifted, to + 9, vals);
      && n.states == m.states + [5] && n.toks == m.toks[1..] && n.vals == vals
  {
    assert Pop(AfterShift(m, to).states, 1) == m.states;
  }

  /** `exp: token params`, once the parameters are on the stack. */
  lemma ExpReduces(m: Machine, limit: nat, base: seq<int>) returns (n: Machine)
    requires Valid(m) && |m.states| < limit
    requires base != [] && OpensExp(Top(base)) && m.states == base + [5, 8]
    ensures Valid(n) && n.states == base + [Goto(2, Top(base))] && n.toks == m.toks && n.vals == m.vals
    ensures Run(m, limit) == Run(n, limit)
  {
    hide Run, Step, TotalWeight, IsPath;
    n := ReduceRound(m, limit, 2, m.vals);
    assert Pop(m.states, 2) == base;
  }

  /** `params: %empty`, and then the expression. */
  lemma BareHeadRuns(m: Machine, limit: nat, base: seq<int>) returns (n: Machine)
    requires Valid(m) && EndsExp(m.toks)
    requires base != [] && OpensExp(Top(base)) && m.states == base + [5]
    ensures Valid(n)
    ensures if |m.states| + 1 < limit
            then Run(m, limit) == Run(n, limit) && n.states == base + [Goto(2, Top(base))]
              && n.toks == m.toks && n.vals == m.vals
            else Fails(Run(m, limit), true)
  {
    hide Run, Step, TotalWeight, IsPath;
    n := m;
    if |m.states| < limit {
      var p := ReduceRound(m, limit, 3, m.vals);
      assert p.states == base + [5, 8];
      if |p.states| < limit {
        n := ExpReduces(p, limit, base);
      } else {
        NoRoom(p, limit);
      }
    } else {
      NoRoom(m, limit);
    }
  }

  /** `params: LPAREN param_list RPAREN` from the closing parenthesis on, and then the expression. */
  lemma CallCloses(m: Machine, limit: nat, base: seq<int>) returns (n: Machine)
    requires Valid(m) && m.toks != [] && m.toks[0].RParen?
    requires base != [] && OpensExp(Top(base)) && m.states == base + [5, 7, 11]
    ensures Valid(n)
    ensures if |m.states| + 1 < limit
            then Run(m, limit) == Run(n, limit) && n.states == base + [Goto(2, Top(base))]
              && n.toks == m.toks[1..] && n.vals == m.vals
            else Fails(Run(m, limit), true)
  {
    hide Run, Step, TotalWeight, IsPath;
    n := m;
    if |m.states| < limit {
      ShiftRound(m, limit, 14);
      var p := AfterShift(m, 14);
      if |p.states| < limit {
        assert p.states == base + [5, 7, 11, 14];
        var q := ReduceRound(p, limit, 4, p.vals);
        assert Pop(p.states, 3) == base + [5];
        assert q.states == base + [5, 8];
        n := ExpReduces(q, limit, base);
      } else {
        NoRoom(p, limit);
      }
    } else {
      NoRoom(m, limit);
    }
  }

  /** The mid-rule actions `$@1` and `$@2` add the expression just read as a parameter. */
  lemma ParamAdded(m: Machine, limit: nat) returns (n: Machine)
    requires Valid(m) && (Top(m.states) == 10 || Top(m.states) == 12)
    ensures Valid(n) && |m.vals| >= 2
    ensures var target := m.vals[|m.vals| - 2];
      if |m.states| < limit && target.Obj?
      then Run(m, limit) == Run(n, limit)
        && Reached(m, n, Top(m.states) + 3, m.toks, Pop(m.vals, 2) + [AppendParam(target, Top(m.vals))])
      else Fails(Run(m, limit), target.Obj?)
  {
    WeightBound(m.states);
    if limit <= |m.states| {
      NoRoom(m, limit);
      n := m;
    } else if m.vals[|m.vals| - 2].Obj? {
      hide Run, Step, TotalWeight, IsPath, HeadShifted, LeastWeight;
      n := ReduceRound(m, limit, if Top(m.states) == 10 then 6 else 8,
                       Pop(m.vals, 2) + [AppendParam(m.vals[|m.vals| - 2], Top(m.vals))]);
    } else {
      n := m;
    }
  }

  /** `param_list: %empty`. */
  lemma ListEnds(m: Machine, limit: nat) returns (n: Machine)
    requires Valid(m) && OpensList(Top(m.states)) && m.toks != [] && m.toks[0].RParen?
    ensures Valid(n)
    ensures if |m.states| < limit
            then Run(m, limit) == Run(n, limit) && Reached(m, n, Goto(5, Top(m.states)), m.toks, m.vals)
            else Fails(Run(m, limit), true)
  {
    hide Run, Step, TotalWeight, IsPath;
    n := m;
    if |m.states| < limit {
      n := ReduceRound(m, limit, 5, m.vals);
      assert Pop(m.states, 0) == m.states;
    } else {
      NoRoom(m, limit);
    }
  }

  /** `param_list: exp $@1 param_list` and `param_list: COMMA exp $@2 param_list`. */
  lemma ListReduces(m: Machine, limit: nat, base: seq<int>, comma: bool) returns (n: Machine)
    requires Valid(m) && |m.states| < limit
    requires base != [] && OpensList(Top(base))
    requires m.states == base + if comma then [9, 12, 15, 17] else [10, 13, 16]
    ensures Valid(n) && n.states == base + [Goto(5, Top(base))] && n.toks == m.toks && n.vals == m.vals
    ensures Run(m, limit) == Run(n, limit)
  {
    hide Run, Step, TotalWeight, IsPath;
    n := ReduceRound(m, limit, if comma then 9 else 7, m.vals);
    assert Pop(m.states, if comma then 4 else 3) == base;
  }

  /** What the parameters of `args` make of the value they are added to. */
  function AppendAll(target: Json, args: seq<Json>): Json
    requires args == [] || target.Obj?
  {
    if args == [] then target
    else Obj(target.functor, Present((if target.params.Present? then target.params.value else []) + args))
  }

  lemma AppendFirst(target: Json, param: Json, args: seq<Json>)
    requires target.Obj?
    ensures AppendAll(AppendParam(target, param), args) == AppendAll(target, [Collapse(param)] + args)
  {
    var before := if target.params.Present? then target.params.value else [];
    assert before + [Collapse(param)] + args == before + ([Collapse(param)] + args);
    assert args == [] ==> [Collapse(param)] + args == [Collapse(param)];
  }

  lemma CallTree(e: Exp)
    requires e.params.Args? && (e.params.list.Nil? || e.head.VariableTok?)
    ensures AppendAll(HeadValue(e.head), ParamsOf(e.params.list)) == TreeOf(e)
  {
    var args := ParamsOf(e.params.list);
    assert [] + args == args;
  }

  predicate Fits(e: Exp, base: nat, limit: nat) {
    base + Height(e) < limit && WellHeaded(e)
  }

  predicate FitsList(l: ParamList, target: Json, base: nat, limit: nat) {
    base + HeightList(l) < limit && WellHeadedList(l) && (l.Nil? || target.Obj?)
  }

  lemma ListStarts(l: ParamList, rest: seq<Token>)
    requires rest != [] && rest[0].RParen?
    ensures EndsExp(YieldList(l) + rest) && YieldList(l) + rest != []
  {
  }

  /** A derived expression drives the machine from a state that opens it to the state after it and
      leaves its tree, exactly when it fits and is well headed. */
  lemma {:induction false} ExpRuns(m: Machine, limit: nat, e: Exp, rest: seq<Token>) returns (n: Machine)
    requires Valid(m) && OpensExp(Top(m.states))
    requires m.toks == Yield(e) + rest && EndsExp(rest)
    ensures Valid(n)
    ensures if Fits(e, |m.states|, limit)
            then Run(m, limit) == Run(n, limit) && Reached(m, n, Goto(2, Top(m.states)), rest, m.vals + [TreeOf(e)])
            else Fails(Run(m, limit), WellHeaded(e))
    decreases e
  {
    hide Run, Step, TotalWeight, IsPath;
    n := HeadRuns(m, limit);
    if |m.states| + 1 < limit {
      assert n.states == m.states + [5];
      match e.params
      case NoParams =>
        assert n.toks == rest;
        n := BareHeadRuns(n, limit, m.states);
      case Args(l) =>
        assert n.toks == [LParen] + YieldList(l) + [RParen] + rest;
        n := CallRuns(n, limit, e, rest, m.states, m.vals);
    }
  }

  lemma {:induction false} CallRuns(m: Machine, limit: nat, e: Exp, rest: seq<Token>, base: seq<int>,
          vals: seq<Json>) returns (n: Machine)
    requires Valid(m) && e.params.Args?
    requires base != [] && OpensExp(Top(base)) && m.states == base + [5]
    requires m.toks == [LParen] + YieldList(e.params.list) + [RParen] + rest
    requires m.vals == vals + [HeadValue(e.head)]
    ensures Valid(n)
    ensures if Fits(e, |base|, limit)
            then Run(m, limit) == Run(n, limit) && n.states == base + [Goto(2, Top(base))]
              && n.toks == rest && n.vals == vals + [TreeOf(e)]
            else Fails(Run(m, limit), WellHeaded(e))
    decreases e, 0
  {
    var l := e.params.list;
    n := m;
    CallOpens(m, YieldList(l), rest);
    if e.params.list.Nil? || e.head.VariableTok? { CallTree(e); }
    CallFits(e, base, limit);
    hide Run, Step, Valid, YieldList, AfterShift, TreeOf, ParamsOf, HeadValue, Action;
    if |m.states| < limit {
      ShiftRound(m, limit, 7);
      var entered := AfterShift(m, 7);
      var inside := ListRuns(entered, limit, l, [RParen] + rest, vals, HeadValue(e.head));
      if FitsList(l, HeadValue(e.head), |entered.states|, limit) {
        ThreeOnTop(base, 5, 7, 11);
        n := CallCloses(inside, limit, base);
        Prepended(RParen, rest);
      }
    } else {
      NoRoom(m, limit);
    }
  }

  lemma CallOpens(m: Machine, middle: seq<Token>, rest: seq<Token>)
    requires m.states != [] && Top(m.states) == 5 && m.toks == [LParen] + middle + [RParen] + rest
    ensures var n := AfterShift(m, 7);
      n.states == m.states + [7] && n.toks == middle + ([RParen] + rest) && n.vals == m.vals
    ensures m.toks != [] && Action(5, NextSymbol(m.toks)) == T.Shift(7)
  {
    assert m.toks == [LParen] + (middle + ([RParen] + rest));
  }

  /** What it takes a call to fit. */
  lemma CallFits(e: Exp, base: seq<int>, limit: nat)
    requires e.params.Args?
    ensures Fits(e, |base|, limit) <==>
      FitsList(e.params.list, HeadValue(e.head), |base| + 2, limit) && |base| + 4 < limit
    ensures WellHeaded(e) ==> WellHeadedList(e.params.list) && (e.params.list.Nil? || HeadValue(e.head).Obj?)
    ensures |base| + 1 >= limit ==> !Fits(e, |base|, limit)
  {
    var l := e.params.list;
    assert Height(e) == Max(4, 2 + HeightList(l));
    assert WellHeaded(e) <==> (l.Nil? || e.head.VariableTok?) && WellHeadedList(l);
    assert e.head.VariableTok? <==> HeadValue(e.head).Obj?;
  }

  lemma ThreeOnTop(base: seq<int>, a: int, b: int, c: int)
    ensures base + [a] + [b] + [c] == base + [a, b, c]
  {
  }

  lemma Prepended(t: Token, rest: seq<Token>)
    ensures ([t] + rest)[1..] == rest && ([t] + rest)[0] == t
  {
  }

  lemma {:induction false} ListRuns(m: Machine, limit: nat, l: ParamList, rest: seq<Token>, vals: seq<Json>,
          target: Json) returns (n: Machine)
    requires Valid(m) && OpensList(Top(m.states))
    requires m.toks == YieldList(l) + rest && rest != [] && rest[0].RParen?
    requires m.vals == vals + [target]
    ensures Valid(n)
    ensures if FitsList(l, target, |m.states|, limit)
            then Run(m, limit) == Run(n, limit)
              && Reached(m, n, Goto(5, Top(m.states)), rest, vals + [AppendAll(target, ParamsOf(l))])
            else Fails(Run(m, limit), WellHeadedList(l) && (l.Nil? || target.Obj?))
    decreases l, 2
  {
    n := m;
    if l.Cons? {
      ListOpens(m, l, rest);
    } else {
      EmptyList(rest, target);
      assert YieldList(l) + rest == rest;
    }
    hide Run, Step, Valid, YieldList, Yield, AfterShift, ParamsOf, AppendAll, Action, WellHeadedList;
    if limit <= |m.states| {
      NoRoom(m, limit);
      ListFits(l, target, |m.states|, limit);
    } else if l.Nil? {
      n := ListEnds(m, limit);
      if limit <= |n.states| { NoRoom(n, limit); }
    } else {
      var start := m;
      if l.comma {
        ShiftRound(m, limit, 9);
        start := AfterShift(m, 9);
      }
      n := ParamRuns(start, limit, l, rest, vals, target, m.states);
    }
  }

  lemma EmptyList(rest: seq<Token>, target: Json)
    ensures YieldList(Nil) + rest == rest && WellHeadedList(Nil) && HeightList(Nil) == 1
    ensures ParamsOf(Nil) == [] && AppendAll(target, []) == target
  {
  }

  /** A parameter begins with a comma or with its expression. */
  lemma ListOpens(m: Machine, l: ParamList, rest: seq<Token>)
    requires m.states != [] && l.Cons? && OpensList(Top(m.states)) && m.toks == YieldList(l) + rest
    ensures var param := Yield(l.exp) + YieldList(l.rest) + rest;
      && (!l.comma ==> m.toks == param)
      && (l.comma ==>
            && Consults(Top(m.states)) && Top(m.states) != T.YYFINAL
            && Action(Top(m.states), NextSymbol(m.toks)) == T.Shift(9)
            && var n := AfterShift(m, 9);
            && n.states == m.states + [9] && n.toks == param && n.vals == m.vals)
    ensures m.states + [] == m.states
  {
    var param := Yield(l.exp) + YieldList(l.rest) + rest;
    ListIsParam(l, rest);
    assert YieldComma(l.comma) == if l.comma then [Comma] else [];
    hide Yield, YieldList, YieldComma;
    if l.comma {
      CommaShifts(m, param);
    } else {
      NothingBefore(param);
    }
    assert m.states + [] == m.states;
  }

  lemma ListIsParam(l: ParamList, rest: seq<Token>)
    requires l.Cons?
    ensures YieldList(l) + rest == YieldComma(l.comma) + (Yield(l.exp) + YieldList(l.rest) + rest)
  {
    assert YieldList(l) == YieldComma(l.comma) + Yield(l.exp) + YieldList(l.rest);
    hide YieldList, YieldComma, Yield;
  }

  lemma NothingBefore<X>(s: seq<X>)
    ensures [] + s == s
  {
  }

  lemma CommaShifts(m: Machine, param: seq<Token>)
    requires m.states != [] && OpensList(Top(m.states)) && m.toks == [Comma] + param
    ensures Consults(Top(m.states)) && Top(m.states) != T.YYFINAL
    ensures Action(Top(m.states), NextSymbol(m.toks)) == T.Shift(9)
    ensures var n := AfterShift(m, 9); n.states == m.states + [9] && n.toks == param && n.vals == m.vals
  {
  }

  lemma ListFits(l: ParamList, target: Json, base: nat, limit: nat)
    ensures limit <= base ==> !FitsList(l, target, base, limit)
    ensures l.Cons? ==>
      var c := if l.comma then 1 else 0;
      && (WellHeadedList(l) <==> WellHeaded(l.exp) && WellHeadedList(l.rest))
      && (FitsList(l, target, base, limit) <==>
            Fits(l.exp, base + c, limit) && FitsList(l.rest, target, base + c + 2, limit)
            && base + c + 3 < limit && target.Obj?)
  {
    if l.Cons? {
      var c := if l.comma then 1 else 0;
      assert HeightList(l) == Max(c + Height(l.exp), c + 2 + HeightList(l.rest));
    }
  }

  lemma {:induction false} ParamRuns(m: Machine, limit: nat, l: ParamList, rest: seq<Token>, vals: seq<Json>,
          target: Json, base: seq<int>) returns (n: Machine)
    requires Valid(m) && l.Cons? && base != [] && OpensList(Top(base))
    requires m.states == base + if l.comma then [9] else []
    requires m.toks == Yield(l.exp) + YieldList(l.rest) + rest && rest != [] && rest[0].RParen?
    requires m.vals == vals + [target]
    ensures Valid(n)
    ensures if FitsList(l, target, |base|, limit)
            then Run(m, limit) == Run(n, limit) && n.states == base + [Goto(5, Top(base))] && n.toks == rest
              && n.vals == vals + [AppendAll(target, ParamsOf(l))]
            else Fails(Run(m, limit), WellHeadedList(l) && target.Obj?)
    decreases l, 1
  {
    ListStarts(l.rest, rest);
    ListFits(l, target, |base|, limit);
    Associative(Yield(l.exp), YieldList(l.rest), rest);
    hide Run, Step, Valid, Yield, YieldList, TreeOf, ParamsOf, AppendAll, Collapse, Fits, FitsList, WellHeaded,
            WellHeadedList, EndsExp;
    n := ExpRuns(m, limit, l.exp, YieldList(l.rest) + rest);
    if Fits(l.exp, |m.states|, limit) {
      ParamStates(base, l.comma);
      n := ParamContinues(n, limit, l, rest, vals, target, base);
    }
  }

  /** A parameter from the end of its expression on. */
  lemma {:induction false} ParamContinues(m: Machine, limit: nat, l: ParamList, rest: seq<Token>, vals: seq<Json>,
          target: Json, base: seq<int>) returns (n: Machine)
    requires Valid(m) && l.Cons? && base != [] && OpensList(Top(base))
    requires m.states == base + if l.comma then [9, 12] else [10]
    requires m.toks == YieldList(l.rest) + rest && rest != [] && rest[0].RParen?
    requires m.vals == vals + [target] + [TreeOf(l.exp)]
    ensures Valid(n)
    ensures if |m.states| < limit && target.Obj? && FitsList(l.rest, target, |m.states| + 1, limit)
            then Run(m, limit) == Run(n, limit) && n.states == base + [Goto(5, Top(base))] && n.toks == rest
              && n.vals == vals + [AppendAll(target, ParamsOf(l))]
            else Fails(Run(m, limit), WellHeadedList(l) && target.Obj?)
    decreases l, 0
  {
    TwoOnTop(vals, target, TreeOf(l.exp));
    if target.Obj? { AppendFirst(target, TreeOf(l.exp), ParamsOf(l.rest)); }
    assert ParamsOf(l) == [Collapse(TreeOf(l.exp))] + ParamsOf(l.rest);
    assert WellHeadedList(l) ==> WellHeadedList(l.rest);
    hide Run, Step, Valid, Yield, YieldList, TreeOf, ParamsOf, AppendAll, Collapse, Fits, FitsList, WellHeaded,
            WellHeadedList, EndsExp;
    n := ParamAdded(m, limit);
    if |m.states| < limit && target.Obj? {
      var grown := AppendParam(target, TreeOf(l.exp));
      SameRoom(l.rest, target, grown, |n.states|, limit);
      n := ListRuns(n, limit, l.rest, rest, vals, grown);
      if FitsList(l.rest, grown, |m.states| + 1, limit) {
        ParamStates(base, l.comma);
        n := ListReduces(n, limit, base, l.comma);
      }
    }
  }

  lemma TwoOnTop(vals: seq<Json>, a: Json, b: Json)
    ensures Pop(vals + [a] + [b], 2) == vals && Top(vals + [a] + [b]) == b && (vals + [a] + [b])[|vals|] == a
  {
  }

  /** Fitting depends on the target only as far as it can take parameters. */
  lemma SameRoom(l: ParamList, target: Json, grown: Json, base: nat, limit: nat)
    requires target.Obj? && grown.Obj?
    ensures FitsList(l, target, base, limit) <==> FitsList(l, grown, base, limit)
    ensures FitsList(l, target, base, limit) ==> base + 1 < limit
  {
  }

  lemma ParamStates(base: seq<int>, comma: bool)
    ensures base + [9] + [12] == base + [9, 12] && base + [] == base
    ensures base + [9, 12] + [15] + [17] == base + [9, 12, 15, 17]
    ensures base + [10] + [13] + [16] == base + [10, 13, 16]
  {
  }

  // ----- Soundness: every entry of the stack stands for a parsed part of the input --------------

  /** What has been parsed for an entry of the stack; `Mark` is for the mid-rule actions and for the
      end of the input. */
  datatype Part =
    | Mark
    | Punctuation(token: Token)
    | HeadPart(head: Head)
    | ExpPart(exp: Exp)
    | ParamsPart(params: Params)
    | ListPart(list: ParamList)

  function YieldPart(p: Part): seq<Token> {
    match p
    case Mark => []
    case Punctuation(t) => [t]
    case HeadPart(h) => [h]
    case ExpPart(e) => Yield(e)
    case ParamsPart(ps) => YieldParams(ps)
    case ListPart(l) => YieldList(l)
  }

  function YieldParts(ps: seq<Part>): seq<Token> {
    if ps == [] then [] else YieldParts(Pop(ps, 1)) + YieldPart(Top(ps))
  }

  /** The part that an entry has to stand for. */
  predicate Fulfils(s: int, p: Part) {
    match s
    case 1 => p.HeadPart? && p.head.StringTok?
    case 2 => p.HeadPart? && p.head.NumberTok?
    case 3 => p.HeadPart? && p.head.VariableTok?
    case 4 => p.ExpPart?
    case 5 => p.HeadPart?
    case 7 => p == Punctuation(LParen)
    case 8 => p.ParamsPart?
    case 9 => p == Punctuation(Comma)
    case 10 => p.ExpPart?
    case 11 => p.ListPart?
    case 12 => p.ExpPart?
    case 14 => p == Punctuation(RParen)
    case 16 => p.ListPart?
    case 17 => p.ListPart?
    case _ => p == Mark
  }

  /** The entries' parts and the tokens to come make up the whole input. */
  predicate Explains(ps: seq<Part>, m: Machine, all: seq<Token>) {
    && |m.states| == |ps| + 1
    && (forall i {:trigger ps[i]} :: 0 <= i < |ps| ==> Fulfils(m.states[i + 1], ps[i]))
    && YieldParts(ps) + m.toks == all
    && (Top(m.states) == T.YYFINAL ==> m.toks == [])
  }

  lemma PushedPart(ps: seq<Part>, p: Part)
    ensures YieldParts(ps + [p]) == YieldParts(ps) + YieldPart(p)
  {
    assert Pop(ps + [p], 1) == ps;
  }

  function ShiftedPart(toks: seq<Token>): Part {
    if toks == [] then Mark
    else if IsHead(toks[0]) then HeadPart(toks[0])
    else Punctuation(toks[0])
  }

  lemma ShiftFulfils(toks: seq<Token>, state: int, to: int)
    requires Action(state, NextSymbol(toks)) == T.Shift(to)
    ensures Fulfils(to, ShiftedPart(toks)) && (to == T.YYFINAL ==> toks == [])
  {
  }

  lemma ShiftExplained(m: Machine, to: int, ps: seq<Part>, all: seq<Token>) returns (qs: seq<Part>)
    requires Valid(m) && Explains(ps, m, all)
    requires Action(Top(m.states), NextSymbol(m.toks)) == T.Shift(to)
    ensures Explains(qs, AfterShift(m, to), all)
  {
    ShiftFulfils(m.toks, Top(m.states), to);
    var p := ShiftedPart(m.toks);
    var n := AfterShift(m, to);
    qs := ps + [p];
    assert m.toks == YieldPart(p) + n.toks;
    hide Valid, Fulfils, Action, YieldPart, YieldParts;
    PushedPart(ps, p);
    Associative(YieldParts(ps), YieldPart(p), n.toks);
    assert Top(n.states) == to;
    forall i | 0 <= i < |qs| ensures Fulfils(n.states[i + 1], qs[i]) {
      if i < |ps| { assert Fulfils(m.states[i + 1], ps[i]); }
    }
  }

  /** The part that a reduction builds from the parts of its handle. */
  function Reduced(rule: int, ps: seq<Part>): Part {
    var n := |ps|;
    match rule
    case 2 =>
      if n > 1 && ps[n - 2].HeadPart? && ps[n - 1].ParamsPart?
      then ExpPart(Exp(ps[n - 2].head, ps[n - 1].params)) else Mark
    case 3 => ParamsPart(NoParams)
    case 4 => if n > 1 && ps[n - 2].ListPart? then ParamsPart(Args(ps[n - 2].list)) else Mark
    case 5 => ListPart(Nil)
    case 7 =>
      if n > 2 && ps[n - 3].ExpPart? && ps[n - 1].ListPart?
      then ListPart(Cons(false, ps[n - 3].exp, ps[n - 1].list)) else Mark
    case 9 =>
      if n > 2 && ps[n - 3].ExpPart? && ps[n - 1].ListPart?
      then ListPart(Cons(true, ps[n - 3].exp, ps[n - 1].list)) else Mark
    case 10 => if n > 0 then ps[n - 1] else Mark
    case 11 => if n > 0 then ps[n - 1] else Mark
    case 12 => if n > 0 then ps[n - 1] else Mark
    case _ => Mark
  }

  /** The yields of the topmost `k` parts. */
  function TopYield(ps: seq<Part>, k: nat): seq<Token>
    requires k <= |ps|
  {
    if k == 0 then [] else YieldPart(ps[|ps| - k]) + TopYield(ps, k - 1)
  }

  lemma {:induction false} PoppedYield(ps: seq<Part>, k: nat)
    requires k <= |ps|
    ensures YieldParts(ps) == YieldParts(Pop(ps, k)) + TopYield(ps, k)
  {
    if k == 0 {
      assert Pop(ps, 0) == ps;
    } else {
      hide *;
      PoppedOne(ps, k);
      var below, part := Pop(ps, k), ps[|ps| - k];
      PoppedYield(ps, k - 1);
      PushedPart(below, part);
      Regroup(YieldParts(ps), YieldParts(below), YieldPart(part), TopYield(ps, k - 1));
    }
  }

  lemma PoppedOne(ps: seq<Part>, k: nat)
    requires 0 < k <= |ps|
    ensures Pop(ps, k - 1) == Pop(ps, k) + [ps[|ps| - k]]
    ensures TopYield(ps, k) == YieldPart(ps[|ps| - k]) + TopYield(ps, k - 1)
  {
  }

  lemma Regroup<X>(all: seq<X>, a: seq<X>, b: seq<X>, c: seq<X>)
    requires all == (a + b) + c
    ensures all == a + (b + c)
  {
  }

  lemma TopYields(ps: seq<Part>)
    ensures |ps| >= 1 ==> TopYield(ps, 1) == YieldPart(ps[|ps| - 1])
    ensures |ps| >= 2 ==> TopYield(ps, 2) == YieldPart(ps[|ps| - 2]) + YieldPart(ps[|ps| - 1])
    ensures |ps| >= 3 ==>
      TopYield(ps, 3) == YieldPart(ps[|ps| - 3]) + (YieldPart(ps[|ps| - 2]) + YieldPart(ps[|ps| - 1]))
    ensures |ps| >= 4 ==>
      TopYield(ps, 4) ==
      YieldPart(ps[|ps| - 4]) + (YieldPart(ps[|ps| - 3]) + (YieldPart(ps[|ps| - 2]) + YieldPart(ps[|ps| - 1])))
  {
    assert TopYield(ps, 0) == [];
    if |ps| >= 1 { assert TopYield(ps, 1) == YieldPart(ps[|ps| - 1]); }
    if |ps| >= 2 { assert TopYield(ps, 2) == YieldPart(ps[|ps| - 2]) + TopYield(ps, 1); }
    if |ps| >= 3 { assert TopYield(ps, 3) == YieldPart(ps[|ps| - 3]) + TopYield(ps, 2); }
    if |ps| >= 4 { assert TopYield(ps, 4) == YieldPart(ps[|ps| - 4]) + TopYield(ps, 3); }
  }

  predicate FulfilsTop(states: seq<int>, ps: seq<Part>, k: nat)
    requires k < |ps| && |states| == |ps| + 1
  {
    Fulfils(states[|states| - 1 - k], ps[|ps| - 1 - k])
  }

  /** The topmost parts are those of the right-hand side of `rule`. */
  predicate RightHandSide(rule: int, ps: seq<Part>)
    requires RuleLength(rule) <= |ps|
  {
    var n := |ps|;
    match rule
    case 2 => ps[n - 2].HeadPart? && ps[n - 1].ParamsPart?
    case 4 => ps[n - 3] == Punctuation(LParen) && ps[n - 2].ListPart? && ps[n - 1] == Punctuation(RParen)
    case 7 => ps[n - 3].ExpPart? && ps[n - 2] == Mark && ps[n - 1].ListPart?
    case 9 => ps[n - 4] == Punctuation(Comma) && ps[n - 3].ExpPart? && ps[n - 2] == Mark && ps[n - 1].ListPart?
    case 10 => ps[n - 1].HeadPart?
    case 11 => ps[n - 1].HeadPart?
    case 12 => ps[n - 1].HeadPart?
    case _ => true
  }

  lemma HandleParts(rule: int, symbol: nat, states: seq<int>, ps: seq<Part>)
    requires |states| == |ps| + 1 && Top(states) != T.YYFINAL
    requires Action(Top(states), symbol) == T.Reduce(rule)
    requires Handle(rule, states) && RuleLength(rule) <= |ps|
    requires forall k :: 0 <= k < RuleLength(rule) ==> FulfilsTop(states, ps, k)
    ensures RightHandSide(rule, ps) && 2 <= rule <= 12
  {
    if RuleLength(rule) > 0 { assert FulfilsTop(states, ps, 0); }
    if RuleLength(rule) > 1 { assert FulfilsTop(states, ps, 1); }
    if RuleLength(rule) > 2 { assert FulfilsTop(states, ps, 2); }
    if RuleLength(rule) > 3 { assert FulfilsTop(states, ps, 3); }
  }

  lemma ReducedCallYield(ps: seq<Part>)
    requires 3 <= |ps| && RightHandSide(4, ps)
    ensures YieldPart(Reduced(4, ps)) == TopYield(ps, 3)
  {
    hide *;
    var l := CallShape(ps);
    TopThree(ps);
    Associative([LParen], YieldList(l), [RParen]);
  }

  lemma CallShape(ps: seq<Part>) returns (l: ParamList)
    requires 3 <= |ps| && RightHandSide(4, ps)
    ensures var n := |ps|; YieldPart(ps[n - 3]) == [LParen] && YieldPart(ps[n - 2]) == YieldList(l)
    ensures YieldPart(ps[|ps| - 1]) == [RParen]
    ensures YieldPart(Reduced(4, ps)) == [LParen] + YieldList(l) + [RParen]
  {
    hide YieldList, Yield;
    l := ps[|ps| - 2].list;
  }

  lemma ConsYield(comma: bool, e: Exp, l: ParamList)
    ensures YieldList(Cons(comma, e, l)) == YieldComma(comma) + (Yield(e) + ([] + YieldList(l)))
  {
    assert YieldList(Cons(comma, e, l)) == YieldComma(comma) + Yield(e) + YieldList(l);
    hide YieldList, YieldComma, Yield;
    assert [] + YieldList(l) == YieldList(l);
    Associative(YieldComma(comma), Yield(e), YieldList(l));
  }

  lemma ReducedParamYield(ps: seq<Part>)
    requires 3 <= |ps| && RightHandSide(7, ps)
    ensures YieldPart(Reduced(7, ps)) == TopYield(ps, 3)
  {
    hide *;
    var e, l := ParamShape(ps);
    TopThree(ps);
    ParamYield(e, l);
  }

  lemma ParamShape(ps: seq<Part>) returns (e: Exp, l: ParamList)
    requires 3 <= |ps| && RightHandSide(7, ps)
    ensures var n := |ps|; ps[n - 3] == ExpPart(e) && ps[n - 2] == Mark && ps[n - 1] == ListPart(l)
    ensures YieldPart(Reduced(7, ps)) == YieldList(Cons(false, e, l))
  {
    hide YieldList, Yield;
    e, l := ps[|ps| - 3].exp, ps[|ps| - 1].list;
  }

  lemma TopThree(ps: seq<Part>)
    requires |ps| >= 3
    ensures TopYield(ps, 3) == YieldPart(ps[|ps| - 3]) + (YieldPart(ps[|ps| - 2]) + YieldPart(ps[|ps| - 1]))
  {
    TopYields(ps);
    hide *;
  }

  lemma ParamYield(e: Exp, l: ParamList)
    ensures YieldList(Cons(false, e, l)) == YieldPart(ExpPart(e)) + (YieldPart(Mark) + YieldPart(ListPart(l)))
  {
    hide *;
    ConsYield(false, e, l);
    PartYields(e, l);
    NothingBefore(Yield(e) + ([] + YieldList(l)));
  }

  lemma PartYields(e: Exp, l: ParamList)
    ensures YieldPart(ExpPart(e)) == Yield(e) && YieldPart(Mark) == [] && YieldPart(ListPart(l)) == YieldList(l)
    ensures YieldComma(false) == [] && YieldPart(Punctuation(Comma)) == YieldComma(true)
  {
    hide YieldList, Yield;
  }

  lemma ReducedCommaYield(ps: seq<Part>)
    requires 4 <= |ps| && RightHandSide(9, ps)
    ensures YieldPart(Reduced(9, ps)) == TopYield(ps, 4)
  {
    hide *;
    var e, l := CommaShape(ps);
    TopFour(ps);
    CommaYield(e, l);
  }

  lemma CommaShape(ps: seq<Part>) returns (e: Exp, l: ParamList)
    requires 4 <= |ps| && RightHandSide(9, ps)
    ensures var n := |ps|; ps[n - 4] == Punctuation(Comma) && ps[n - 3] == ExpPart(e)
    ensures var n := |ps|; ps[n - 2] == Mark && ps[n - 1] == ListPart(l)
    ensures YieldPart(Reduced(9, ps)) == YieldList(Cons(true, e, l))
  {
    hide YieldList, Yield;
    e, l := ps[|ps| - 3].exp, ps[|ps| - 1].list;
  }

  lemma TopFour(ps: seq<Part>)
    requires |ps| >= 4
    ensures TopYield(ps, 4) ==
      YieldPart(ps[|ps| - 4]) + (YieldPart(ps[|ps| - 3]) + (YieldPart(ps[|ps| - 2]) + YieldPart(ps[|ps| - 1])))
  {
    TopYields(ps);
    hide *;
  }

  lemma CommaYield(e: Exp, l: ParamList)
    ensures YieldList(Cons(true, e, l)) ==
      YieldPart(Punctuation(Comma)) + (YieldPart(ExpPart(e)) + (YieldPart(Mark) + YieldPart(ListPart(l))))
  {
    hide *;
    ConsYield(true, e, l);
    PartYields(e, l);
  }

  lemma ReducedYield(rule: int, ps: seq<Part>)
    requires 2 <= rule <= 12 && RuleLength(rule) <= |ps| && RightHandSide(rule, ps)
    ensures YieldPart(Reduced(rule, ps)) == TopYield(ps, RuleLength(rule))
  {
    hide *;
    LengthsOfRules(rule);
    if rule == 4 {
      ReducedCallYield(ps);
    } else if rule == 7 {
      ReducedParamYield(ps);
    } else if rule == 9 {
      ReducedCommaYield(ps);
    } else if rule == 2 {
      ReducedExpYield(ps);
    } else if rule >= 10 {
      ReducedHeadYield(rule, ps);
    } else {
      ReducedNothingYield(rule, ps);
    }
  }

  lemma LengthsOfRules(rule: int)
    requires 2 <= rule <= 12
    ensures RuleLength(rule) ==
      if rule == 2 then 2 else if rule == 4 || rule == 7 then 3 else if rule == 9 then 4
      else if rule >= 10 then 1 else 0
  {
  }

  lemma ReducedExpYield(ps: seq<Part>)
    requires 2 <= |ps| && RightHandSide(2, ps)
    ensures YieldPart(Reduced(2, ps)) == TopYield(ps, 2)
  {
    TopYields(ps);
    hide TopYield;
  }

  lemma ReducedHeadYield(rule: int, ps: seq<Part>)
    requires 10 <= rule <= 12 && 1 <= |ps|
    ensures YieldPart(Reduced(rule, ps)) == TopYield(ps, 1)
  {
    TopYields(ps);
    hide YieldPart, TopYield;
  }

  lemma ReducedNothingYield(rule: int, ps: seq<Part>)
    requires rule == 3 || rule == 5 || rule == 6 || rule == 8
    ensures YieldPart(Reduced(rule, ps)) == TopYield(ps, 0)
  {
  }

  lemma ReducedFulfils(rule: int, ps: seq<Part>, state: int)
    requires 2 <= rule <= 12 && RuleLength(rule) <= |ps| && RightHandSide(rule, ps)
    ensures Fulfils(Goto(rule, state), Reduced(rule, ps))
  {
  }

  lemma TopsFulfilled(m: Machine, ps: seq<Part>, all: seq<Token>, k: nat)
    requires m.states != [] && Explains(ps, m, all) && k <= |ps|
    ensures forall j :: 0 <= j < k ==> FulfilsTop(m.states, ps, j)
  {
    hide Fulfils;
    forall j | 0 <= j < k ensures FulfilsTop(m.states, ps, j) {
      assert Fulfils(m.states[|ps| - 1 - j + 1], ps[|ps| - 1 - j]);
    }
  }

  lemma ReplacedExplained(m: Machine, n: Machine, ps: seq<Part>, all: seq<Token>, k: nat, s: int, part: Part)
    returns (qs: seq<Part>)
    requires m.states != [] && Explains(ps, m, all) && k <= |ps|
    requires n.states == Pop(m.states, k) + [s] && s != T.YYFINAL && n.toks == m.toks
    requires Fulfils(s, part) && YieldPart(part) == TopYield(ps, k)
    ensures Explains(qs, n, all)
  {
    hide Fulfils, YieldPart;
    PoppedYield(ps, k);
    PushedPart(Pop(ps, k), part);
    qs := Pop(ps, k) + [part];
    forall i | 0 <= i < |qs| ensures Fulfils(n.states[i + 1], qs[i]) {
      if i < |qs| - 1 { assert Fulfils(m.states[i + 1], ps[i]); }
    }
  }

  lemma ReduceExplained(m: Machine, rule: int, vals: seq<Json>, ps: seq<Part>, all: seq<Token>) returns (qs: seq<Part>)
    requires Valid(m) && Explains(ps, m, all) && Top(m.states) != T.YYFINAL
    requires Action(Top(m.states), NextSymbol(m.toks)) == T.Reduce(rule)
    requires RuleLength(rule) < |m.states| && rule >= 0
    ensures Explains(qs, AfterReduce(m, rule, vals), all)
  {
    hide *;
    var k := RuleLength(rule);
    var part, to, n := Reduced(rule, ps), Goto(rule, m.states[|m.states| - 1 - k]), AfterReduce(m, rule, vals);
    ReductionFulfils(m, rule, ps, all);
    StatesAfterReduce(m, rule, vals);
    qs := ReplacedExplained(m, n, ps, all, k, to, part);
  }

  lemma StatesAfterReduce(m: Machine, rule: int, vals: seq<Json>)
    requires RuleLength(rule) < |m.states| && rule >= 0
    ensures var k := RuleLength(rule); var n := AfterReduce(m, rule, vals);
      n.states == Pop(m.states, k) + [Goto(rule, m.states[|m.states| - 1 - k])] && n.toks == m.toks
  {
    hide RuleLength, Goto;
  }

  /** The part that a reduction puts on the stack stands for the same tokens as those that it pops. */
  lemma ReductionFulfils(m: Machine, rule: int, ps: seq<Part>, all: seq<Token>)
    requires Valid(m) && Explains(ps, m, all) && Top(m.states) != T.YYFINAL
    requires Action(Top(m.states), NextSymbol(m.toks)) == T.Reduce(rule)
    requires RuleLength(rule) < |m.states| && rule >= 0
    ensures var s := Goto(rule, m.states[|m.states| - 1 - RuleLength(rule)]);
      s != T.YYFINAL && Fulfils(s, Reduced(rule, ps))
    ensures RuleLength(rule) <= |ps| && YieldPart(Reduced(rule, ps)) == TopYield(ps, RuleLength(rule))
  {
    var k := RuleLength(rule);
    var below := m.states[|m.states| - 1 - k];
    var symbol := NextSymbol(m.toks);
    assert IsPath(m.states) && |m.states| == |ps| + 1;
    hide *;
    ReductionHasHandle(m.states, symbol, rule);
    HandleHasGoto(m.states, symbol, rule);
    TopsFulfilled(m, ps, all, k);
    HandleParts(rule, symbol, m.states, ps);
    ReducedYield(rule, ps);
    ReducedFulfils(rule, ps, below);
  }

  /** An accepted input is the yield of a parse tree. */
  lemma {:induction false} RunSound(m: Machine, limit: nat, ps: seq<Part>, all: seq<Token>)
    requires Valid(m) && Explains(ps, m, all)
    requires Run(m, limit).outcome == Accepted
    ensures Derives(all)
    decreases |m.toks|, Measure(m.states)
  {
    StepKeepsValid(m, limit);
    hide TotalWeight;
    if Top(m.states) == T.YYFINAL {
      FinalYield(m, ps, all);
    } else {
      var n := Consulted(m);
      var action := Action(Top(m.states), NextSymbol(n.toks));
      var next := Step(m, limit).next;
      if action.Shift? {
        var qs := ShiftExplained(n, action.to, ps, all);
        RunSound(next, limit, qs, all);
      } else {
        ReductionHasHandle(m.states, NextSymbol(n.toks), action.rule);
        var qs := ReduceExplained(n, action.rule, next.vals, ps, all);
        RunSound(next, limit, qs, all);
      }
    }
  }

  lemma FinalYield(m: Machine, ps: seq<Part>, all: seq<Token>)
    requires Valid(m) && Explains(ps, m, all) && Top(m.states) == T.YYFINAL
    ensures Derives(all)
  {
    FinalPath(m.states);
    assert Fulfils(m.states[1], ps[0]) && Fulfils(m.states[2], ps[1]);
    assert Pop(ps, 1) == [ps[0]] && Pop([ps[0]], 1) == [];
    assert YieldParts([ps[0]]) == YieldParts([]) + YieldPart(ps[0]);
    assert Yield(ps[0].exp) == all;
  }

  lemma FinalPath(states: seq<int>)
    requires IsPath(states) && Top(states) == T.YYFINAL
    ensures |states| == 3 && states[1] == 4
  {
    var n := |states|;
    assert Linked(states, n - 1);
    if n > 2 { assert Linked(states, n - 2); }
    assert n > 3 ==> Linked(states, n - 3);
  }

  // ----- The main results -----------------------------------------------------------------------

  /** A derived input that fits and is well headed is accepted, and its tree is left. */
  lemma AcceptedTree(e: Exp, limit: nat)
    ensures Valid(Initial(Yield(e)))
    ensures if Fits(e, 1, limit)
            then Run(Initial(Yield(e)), limit) == Result(Accepted, [TreeOf(e)], [], true)
            else Fails(Run(Initial(Yield(e)), limit), WellHeaded(e))
  {
    hide *;
    var m := Initial(Yield(e));
    InitialValid(Yield(e));
    InitialParts(Yield(e));
    var n := ExpRuns(m, limit, e, []);
    if Fits(e, 1, limit) {
      FitsBelow(e, 1, limit);
      EndOfInput(m, n, TreeOf(e), limit);
    }
  }

  lemma InitialParts(toks: seq<Token>)
    ensures var m := Initial(toks); m.toks == toks + [] && m.states == [0] && m.vals == []
    ensures OpensExp(Top(Initial(toks).states)) && EndsExp([])
  {
  }

  lemma FitsBelow(e: Exp, base: nat, limit: nat)
    requires Fits(e, base, limit)
    ensures base + 2 < limit
  {
  }

  /** The expression is followed by the end of the input, which is accepted. */
  lemma EndOfInput(m: Machine, n: Machine, value: Json, limit: nat)
    requires Valid(m) && m.states == [0] && m.vals == [] && 3 < limit
    requires Reached(m, n, Goto(2, Top(m.states)), [], m.vals + [value])
    ensures Valid(n) && Run(n, limit) == Result(Accepted, [value], [], true)
  {
    assert n.states == [0, 4] && n.vals == [value];
    hide TotalWeight, IsPath, HeadShifted;
    ShiftRound(n, limit, 6);
  }

  lemma InitialValid(toks: seq<Token>)
    ensures Valid(Initial(toks)) && Explains([], Initial(toks), toks)
  {
    assert Pop([0], 1) == [];
  }

  /** Accepted are exactly the yields of the parse trees that fit the stack and are well headed. */
  lemma AcceptsExactlyTheGrammar(toks: seq<Token>, limit: nat)
    ensures Valid(Initial(toks))
    ensures Run(Initial(toks), limit).outcome == Accepted <==> exists e: Exp :: Yield(e) == toks && Fits(e, 1, limit)
  {
    InitialValid(toks);
    if Run(Initial(toks), limit).outcome == Accepted {
      RunSound(Initial(toks), limit, [], toks);
      var e: Exp :| Yield(e) == toks;
      AcceptedTree(e, limit);
    }
    forall e: Exp | Yield(e) == toks && Fits(e, 1, limit) ensures Run(Initial(toks), limit).outcome == Accepted {
      AcceptedTree(e, limit);
    }
  }

  /** A derived input is never called a syntax error. */
  lemma SyntaxErrorsAreNotDerived(toks: seq<Token>, limit: nat)
    ensures Valid(Initial(toks))
    ensures Run(Initial(toks), limit).outcome == SyntaxError ==> !Derives(toks)
  {
    InitialValid(toks);
    forall e: Exp | Yield(e) == toks ensures Run(Initial(toks), limit).outcome != SyntaxError {
      AcceptedTree(e, limit);
    }
  }

  /** No run of the actions pops or reads an empty value stack, whatever the input. */
  lemma {:induction false} NeverUnderflows(m: Machine, limit: nat)
    requires Valid(m)
    ensures Run(m, limit).outcome != StackUnderflow
    decreases |m.toks|, Measure(m.states)
  {
    StepKeepsValid(m, limit);
    var r := Step(m, limit);
    if r.Continue? { NeverUnderflows(r.next, limit); }
  }

  /** A token sequence has at most one parse tree, and so denotes at most one value. */
  lemma OneTree(d: Exp, e: Exp)
    requires Yield(d) == Yield(e)
    ensures d == e
  {
    assert Yield(d) + [] == Yield(e) + [];
    SameTree(d, [], e, []);
  }
}
