/** The JSON values that the parser's actions build, and the tree that a parse tree denotes. */
module Json {
  import opened Grammar
  import opened Option
  import opened Characters

  /** `Obj` has the only two keys that the actions write.  A number with a decimal point is
      represented by its text. */
  datatype Json =
    | Str(s: string)
    | Int(n: int)
    | Float(numeral: string)
    | Obj(functor: Option<string>, params: Field)

  /** The array under a key, if the key is there. */
  datatype Field = Absent | Present(value: seq<Json>)

  const EMPTY_OBJECT: Json := Obj(None, Absent)

  /** Largest value of the 64-bit signed integer that numerals are read into. */
  const MAX_INTEGER: int := 0x7fff_ffff_ffff_ffff

  /** The value of a numeral, which is a run of digits. */
  function Decimal(text: string): (n: nat)
    decreases |text|
  {
    if text == "" || !IsDigit(text[|text| - 1]) then 0
    else 10 * Decimal(text[..|text| - 1]) + DigitValue(text[|text| - 1])
  }

  /** Reading an integer saturates at the largest representable one. */
  function ReadInteger(text: string): int {
    var n := Decimal(text);
    if n > MAX_INTEGER then MAX_INTEGER else n
  }

  function NumberValue(text: string): Json {
    if '.' in text then Float(text) else Int(ReadInteger(text))
  }

  /** The value that the action of a `token` rule pushes. */
  function HeadValue(t: Token): Json
    requires IsHead(t)
  {
    match t
    case StringTok(s) => Str(s)
    case NumberTok(s) => NumberValue(s)
    case VariableTok(s) => Obj(Some(s), Absent)
  }

  /** A parameter that is a head without parameters is stored as its name. */
  function Collapse(j: Json): Json {
    if j.Obj? && j.params.Absent? && j.functor.Some? then Str(j.functor.value) else j
  }

  /** Appending a parameter; only objects can take one. */
  function AppendParam(target: Json, param: Json): Json
    requires target.Obj?
  {
    var before := if target.params.Present? then target.params.value else [];
    Obj(target.functor, Present(before + [Collapse(param)]))
  }

  /** The JSON tree denoted by a parse tree whose calls with parameters have variables as heads. */
  function TreeOf(e: Exp): Json {
    match e.params
    case NoParams => HeadValue(e.head)
    case Args(Nil) => HeadValue(e.head)
    case Args(l) => Obj(Some(TextOf(e.head)), Present(ParamsOf(l)))
  }

  function ParamsOf(l: ParamList): seq<Json> {
    match l
    case Nil => []
    case Cons(_, e, rest) => [Collapse(TreeOf(e))] + ParamsOf(rest)
  }

  /** Every call with parameters has a variable as its head. */
  predicate WellHeaded(e: Exp) {
    match e.params
    case NoParams => true
    case Args(l) => (l.Nil? || e.head.VariableTok?) && WellHeadedList(l)
  }

  predicate WellHeadedList(l: ParamList) {
    match l
    case Nil => true
    case Cons(_, e, rest) => WellHeaded(e) && WellHeadedList(rest)
  }
}
