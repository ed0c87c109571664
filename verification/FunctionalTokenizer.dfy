/** The parser's context: the scanner together with the stack on which the actions build the JSON
    tree. */
module FunctionalTokenizer {
  import opened Json
  import opened Option
  import opened FunctionalLexer

  /** A JSON object under construction, changed in place. */
  class JsonObject {
    var functor: Option<string>
    var params: Field

    constructor ()
      ensures Value() == EMPTY_OBJECT
    {
      functor, params := None, Absent;
    }

    function Value(): Json
      reads this
    {
      Obj(functor, params)
    }

    /** Appends a parameter, to a new array if there is none. */
    method Append(param: Json)
      modifies `params
      ensures params == Present((if old(params).Present? then old(params).value else []) + [param])
    {
      if params.Absent? { params := Present([]); }
      params := Present(params.value + [param]);
    }
  }

  /** What is in an array beyond what has been there before. */
  function Beyond(before: Field, field: Field): Field {
    if before.Absent? || field.Absent? then field
    else if |field.value| <= |before.value| then Absent
    else Present(field.value[|before.value|..])
  }

  predicate Extends(before: Field, field: Field) {
    before.Present? ==> field.Present? && before.value <= field.value
  }

  /** An array, and behind it another one. */
  function Joined(before: Field, field: Field): Field {
    if before.Absent? then field
    else if field.Absent? then before
    else Present(before.value + field.value)
  }

  lemma BeyondIsRest(before: Field, field: Field)
    requires Extends(before, field)
    ensures Joined(before, Beyond(before, field)) == field
  {
  }

  lemma BeyondGrows(before: Field, field: Field, x: Json)
    requires Extends(before, field)
    ensures var values := if field.Present? then field.value else [];
      var beyond := Beyond(before, field);
      && Extends(before, Present(values + [x]))
      && Beyond(before, Present(values + [x])) == Present((if beyond.Present? then beyond.value else []) + [x])
  {
  }

  /** An entry of the value stack: an immediate value, or a reference to an object. */
  datatype Item = Plain(value: Json) | Shared(node: JsonObject)

  class TokenizerLexer {
    const lexer: Lexer
    var root: JsonObject
    var stack: seq<Item>

    /** The root and all objects on the stack. */
    ghost var owned: set<JsonObject>

    /** What has been in the root from the start. */
    ghost var base: Json

    /** The value of an entry; of the root only what has been put into it. */
    ghost function ViewOf(item: Item): Json
      requires base.Obj?
      reads `root, `base, (if item.Shared? then {item.node} else {})
    {
      match item
      case Plain(value) => value
      case Shared(node) =>
        if node == root then Obj(node.functor, Beyond(base.params, node.params)) else node.Value()
    }

    /** The values on the stack. */
    ghost function Vals(): seq<Json>
      reads this, owned
      requires Owning()
    {
      seq(|stack|, i requires 0 <= i < |stack| reads this, owned requires Owning() => ViewOf(stack[i]))
    }

    ghost predicate Owning()
      reads this
    {
      root in owned && base.Obj? && forall i :: 0 <= i < |stack| && stack[i].Shared? ==> stack[i].node in owned
    }

    /** Each object is on the stack once; immediate values are not objects; and the first object to
        be pushed is the root, which is untouched until then. */
    ghost predicate Built()
      reads this, owned
      ensures Built() ==> Owning()
    {
      && Owning()
      && (forall i, j :: 0 <= i < j < |stack| && stack[i].Shared? && stack[j].Shared? ==>
            stack[i].node != stack[j].node)
      && (forall i :: 0 <= i < |stack| && stack[i].Plain? ==> !stack[i].value.Obj?)
      && (forall i :: 0 < i < |stack| && stack[i].Shared? ==> stack[i].node != root)
      && (if stack != [] && stack[0].Shared? then stack[0].node == root else root.Value() == base)
      && Extends(base.params, root.params)
    }

    constructor (lexer: Lexer)
      ensures this.lexer == lexer && Built() && stack == [] && fresh(owned) && base == EMPTY_OBJECT
    {
      this.lexer := lexer;
      var empty := new JsonObject();
      root, owned, base := empty, {empty}, EMPTY_OBJECT;
      stack := [];
    }

    /** Starts a new tree in `root`, which may have values already; switches the scanner to its initial
        condition. */
    method SwitchRoots(root: JsonObject)
      modifies this, lexer`condition
      ensures Built() && this.root == root && owned == {root} && base == root.Value() && stack == []
      ensures lexer.condition == INITIAL
    {
      Clear();
      this.root := root;
      owned, base := {root}, root.Value();
      lexer.condition := INITIAL;
    }

    method Clear()
      modifies `stack
      ensures stack == []
    {
      while stack != []
        decreases |stack|
      {
        stack := stack[..|stack| - 1];
      }
    }

    method SetString()
      requires Built()
      modifies `stack
      ensures Built() && Vals() == old(Vals()) + [Str(lexer.matched)]
    {
      stack := stack + [Plain(Str(lexer.matched))];
    }

    method SetNumber()
      requires Built()
      modifies `stack
      ensures Built() && Vals() == old(Vals()) + [NumberValue(lexer.matched)]
    {
      stack := stack + [Plain(NumberValue(lexer.matched))];
    }

    /** Pushes the root if the stack is empty, and otherwise a new object, with its functor set. */
    method SetVariable()
      requires Built()
      modifies `stack, `owned, root
      ensures Built() && Vals() == old(Vals()) + [Obj(Some(lexer.matched), Absent)]
      ensures fresh(owned - old(owned)) && old(owned) <= owned
    {
      ghost var before := Vals();
      var node := root;
      if |stack| != 0 { node := new JsonObject(); }
      node.functor := Some(lexer.matched);
      stack := stack + [Shared(node)];
      owned := owned + {node};
      assert Vals()[..|before|] == before;
    }

    /** Pops the topmost value and appends it to the parameters of the value below it; fails if that
        is not an object. */
    method AddParam() returns (ok: bool)
      requires Built() && |stack| >= 2
      modifies `stack, owned
      ensures Built()
      ensures var vals := old(Vals()); var target := vals[|vals| - 2];
        && ok == target.Obj?
        && (ok ==> Vals() == vals[..|vals| - 2] + [AppendParam(target, vals[|vals| - 1])])
    {
      ghost var before := Vals();
      var top := stack[|stack| - 1];
      var param := match top case Plain(value) => value case Shared(node) => node.Value();
      stack := stack[..|stack| - 1];
      var target := stack[|stack| - 1];
      assert param == before[|before| - 1];
      assert ViewOf(target) == before[|before| - 2];
      if target.Plain? {
        assert !target.value.Obj? by { assert target == old(stack)[|stack| - 1]; }
        return false;
      }
      var node := target.node;
      hide Extends, Beyond, Collapse;
      BeyondGrows(base.params, root.params, Collapse(param));
      node.Append(Collapse(param));
      assert ViewOf(target) == AppendParam(before[|before| - 2], param);
      assert Vals()[..|stack| - 1] == before[..|before| - 2];
      return true;
    }
  }
}
