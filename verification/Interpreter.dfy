/** The merge-lane interpreter itself: one object that parses and evaluates in the same pass, moving an
    index along the tokens, and the decisions taken on its result. */
module Interpreter {
  import opened Wrappers
  import opened Scalars
  import opened Syntax
  import opened Meaning

  /** What an evaluation adds to the error list, in the order of the tokens. */
  function Errors(e: Expr, ctx: Context): seq<string>
    decreases e, 0
  {
    match e
    case Leaf(token) =>
      var text := TokenText(token);
      if Constant(token).None? && text !in ctx.vars && !AbsentPayload(text, ctx) then
        ["unresolved context: " + text]
      else []
    case Not(operand) => Errors(operand, ctx)
    case Paren(inner) => Errors(inner, ctx)
    case Call(name, args) => AllErrors(args, ctx) + CallErrors(TokenText(name), |args|)
    case Binary(_, left, right) => Errors(left, ctx) + Errors(right, ctx)
  }

  function CallErrors(name: string, count: nat): seq<string> {
    if Supported(name, count) then [] else ["unsupported function: " + name]
  }

  function AllErrors(args: seq<Expr>, ctx: Context): seq<string>
    decreases args, 1
  {
    if args == [] then []
    else AllErrors(args[..|args| - 1], ctx) + Errors(args[|args| - 1], ctx)
  }

  /** The interpreter did what the parse `p` says: it raised that parse's message, or it consumed that
      parse's tokens and holds the direct evaluation of its tree. */
  ghost predicate Did(p: Parsed, r: Result<set<Value>, string>, index: nat, ctx: Context, before: seq<string>,
                      after: seq<string>) {
    match p
    case Failure(message) => r == Failure(message) && before <= after
    case Success((e, j)) => r == Success(Values(e, ctx)) && index == j && after == before + Errors(e, ctx)
  }

  class Expression {
    const tokens: seq<Token>
    const context: Context
    var index: nat
    var errors: seq<string>

    constructor (tokens: seq<Token>, context: Context, errors: seq<string>)
      ensures this.tokens == tokens && this.context == context && index == 0 && this.errors == errors
    {
      this.tokens, this.context, this.index, this.errors := tokens, context, 0, errors;
    }

    function Peek(): (token: Option<Token>)
      reads this
      ensures token == if index < |tokens| then Some(tokens[index]) else None
    {
      if index < |tokens| then Some(tokens[index]) else None
    }

    method Take() returns (token: Option<Token>)
      modifies this`index
      ensures token == old(Peek()) && index == old(index) + 1
    {
      token := Peek();
      index := index + 1;
    }

    method Expect(token: Token) returns (r: Result<Token, string>)
      modifies this`index
      ensures r == if TokenAt(tokens, old(index), token) then Success(token) else Failure(UNEXPECTED)
      ensures r.Success? ==> index == old(index) + 1
    {
      if Peek() != Some(token) {
        return Failure(UNEXPECTED);
      }
      index := index + 1;
      return Success(token);
    }

    method Parse(level: nat) returns (r: Result<set<Value>, string>)
      requires level <= ATOM && index <= |tokens|
      modifies this
      ensures Did(ParseLevel(tokens, old(index), level), r, index, context, old(errors), errors)
      decreases |tokens| - index, ATOM + 1 - level
    {
      if level == ATOM {
        r := Atom();
        return;
      }
      r := Parse(level + 1);
      if r.Failure? {
        return;
      }
      ghost var left := ParseLevel(tokens, old(index), level + 1).value.0;
      while OperatorAt(tokens, index, level)
        invariant old(index) < index <= |tokens|
        invariant r == Success(Values(left, context))
        invariant errors == old(errors) + Errors(left, context)
        invariant ParseLevel(tokens, old(index), level) == ParseRest(tokens, index, level, left)
        decreases |tokens| - index
      {
        r, left := Operation(level, r.value, left, old(errors));
        if r.Failure? {
          return;
        }
      }
    }

    /** One turn of the operator loop: the operator, its right operand, and their combination. */
    method Operation(level: nat, values: set<Value>, ghost left: Expr, ghost before: seq<string>)
      returns (r: Result<set<Value>, string>, ghost whole: Expr)
      requires level < ATOM && OperatorAt(tokens, index, level)
      requires values == Values(left, context) && errors == before + Errors(left, context)
      modifies this
      ensures match r
        case Failure(message) => ParseRest(tokens, old(index), level, left) == Failure(message) && old(errors) <= errors
        case Success(result) =>
          && old(index) < index <= |tokens| && result == Values(whole, context)
          && errors == before + Errors(whole, context)
          && ParseRest(tokens, old(index), level, left) == ParseRest(tokens, index, level, whole)
      decreases |tokens| - index, 0
    {
      whole := left;
      var operator := Take();
      var right := Parse(level + 1);
      if right.Failure? {
        r := right;
        return;
      }
      whole := Binary(operator.value, left, ParseLevel(tokens, old(index) + 1, level + 1).value.0);
      Associative(before, Errors(left, context), Errors(whole.right, context));
      var result := Product(operator.value, values, right.value);
      r := Success(result);
    }

    method Atom() returns (r: Result<set<Value>, string>)
      requires index <= |tokens|
      modifies this
      ensures Did(ParseAtom(tokens, old(index)), r, index, context, old(errors), errors)
      decreases |tokens| - index, 0
    {
      var taken := Take();
      if taken.None? {
        return Failure(INCOMPLETE);
      }
      var token := taken.value;
      if token == Bang {
        r := Negation();
      } else if token == Open {
        r := Group();
      } else if !token.Literal? && Peek() == Some(Open) {
        index := index + 1;
        r := Function(token);
      } else {
        r := Single(token);
      }
    }

    /** The operand after a negation sign. */
    method Negation() returns (r: Result<set<Value>, string>)
      requires 0 < index <= |tokens| && tokens[index - 1] == Bang
      modifies this
      ensures Did(ParseAtom(tokens, old(index) - 1), r, index, context, old(errors), errors)
      decreases |tokens| - index, 1
    {
      r := Atom();
      if r.Success? {
        r := Success(Negations(r.value));
      }
    }

    /** What follows an opening parenthesis. */
    method Group() returns (r: Result<set<Value>, string>)
      requires 0 < index <= |tokens| && tokens[index - 1] == Open
      modifies this
      ensures Did(ParseAtom(tokens, old(index) - 1), r, index, context, old(errors), errors)
      decreases |tokens| - index, ATOM + 3
    {
      r := Parse(0);
      if r.Success? {
        var close := Expect(Close);
        if close.Failure? {
          return Failure(close.error);
        }
      }
    }

    /** What follows a name and an opening parenthesis. */
    method Function(name: Token) returns (r: Result<set<Value>, string>)
      requires 1 < index <= |tokens| && tokens[index - 2] == name && tokens[index - 1] == Open
      requires name != Bang && name != Open && !name.Literal?
      modifies this
      ensures Did(ParseAtom(tokens, old(index) - 2), r, index, context, old(errors), errors)
      decreases |tokens| - index, ATOM + 3
    {
      var arguments := Arguments();
      if arguments.Failure? {
        return Failure(arguments.error);
      }
      var close := Expect(Close);
      if close.Failure? {
        return Failure(close.error);
      }
      ghost var args := ParseArguments(tokens, old(index)).value.0;
      Associative(old(errors), AllErrors(args, context), CallErrors(TokenText(name), |args|));
      if !Supported(TokenText(name), |arguments.value|) {
        errors := errors + ["unsupported function: " + TokenText(name)];
      }
      var values := Apply(TokenText(name), arguments.value);
      return Success(values);
    }

    /** A literal, a keyword, a number or a context name. */
    method Single(token: Token) returns (r: Result<set<Value>, string>)
      requires 0 < index <= |tokens| && tokens[index - 1] == token && token != Bang && token != Open
      requires token.Literal? || Peek() != Some(Open)
      modifies this`errors
      ensures Did(ParseAtom(tokens, index - 1), r, index, context, old(errors), errors)
    {
      if Constant(token).None? && TokenText(token) !in context.vars && !AbsentPayload(TokenText(token), context) {
        errors := errors + ["unresolved context: " + TokenText(token)];
      }
      return Success(LeafValues(token, context));
    }

    method Arguments() returns (r: Result<seq<set<Value>>, string>)
      requires index <= |tokens|
      modifies this
      ensures match ParseArguments(tokens, old(index))
        case Failure(message) => r == Failure(message) && old(errors) <= errors
        case Success((args, j)) =>
          r == Success(AllValues(args, context)) && index == j && errors == old(errors) + AllErrors(args, context)
      decreases |tokens| - index, ATOM + 2
    {
      if Peek() == Some(Close) {
        return Success([]);
      }
      var first := Parse(0);
      if first.Failure? {
        return Failure(first.error);
      }
      ghost var arg := ParseLevel(tokens, old(index), 0).value.0;
      OneArgument(arg);
      r := MoreArguments([first.value], [arg], old(errors));
    }

    /** Further arguments, each after a comma. */
    method MoreArguments(arguments: seq<set<Value>>, ghost args: seq<Expr>, ghost before: seq<string>)
      returns (r: Result<seq<set<Value>>, string>)
      requires index <= |tokens| && arguments == AllValues(args, context) && errors == before + AllErrors(args, context)
      modifies this
      ensures match ParseMoreArguments(tokens, old(index), args)
        case Failure(message) => r == Failure(message) && old(errors) <= errors
        case Success((all, j)) =>
          r == Success(AllValues(all, context)) && index == j && errors == before + AllErrors(all, context)
      decreases |tokens| - index, ATOM + 2
    {
      ghost var done := args;
      var values := arguments;
      while Peek() == Some(Comma)
        invariant old(index) <= index <= |tokens| && old(errors) <= errors
        invariant values == AllValues(done, context) && errors == before + AllErrors(done, context)
        invariant ParseMoreArguments(tokens, old(index), args) == ParseMoreArguments(tokens, index, done)
        decreases |tokens| - index
      {
        index := index + 1;
        ghost var i := index;
        var next := Parse(0);
        if next.Failure? {
          return Failure(next.error);
        }
        ghost var arg := ParseLevel(tokens, i, 0).value.0;
        Associative(before, AllErrors(done, context), Errors(arg, context));
        AddArgument(done, arg);
        done, values := done + [arg], values + [next.value];
      }
      return Success(values);
    }

    lemma Associative(a: seq<string>, b: seq<string>, c: seq<string>)
      ensures (a + b) + c == a + (b + c)
    {
    }

    lemma OneArgument(arg: Expr)
      ensures AllValues([arg], context) == [Values(arg, context)] && AllErrors([arg], context) == Errors(arg, context)
    {
      assert [arg][..0] == [];
    }

    lemma AddArgument(args: seq<Expr>, arg: Expr)
      ensures AllValues(args + [arg], context) == AllValues(args, context) + [Values(arg, context)]
      ensures AllErrors(args + [arg], context) == AllErrors(args, context) + Errors(arg, context)
    {
      assert (args + [arg])[..|args|] == args;
    }

    /** The possible values of an operator, over all pairs of operands. */
    method Product(op: Token, left: set<Value>, right: set<Value>) returns (result: set<Value>)
      ensures result == CombineAll(op, left, right)
    {
      result := {};
      var todo := left;
      while todo != {}
        invariant todo <= left && result == CombineAll(op, left - todo, right)
        decreases todo
      {
        var a :| a in todo;
        var pairs := Against(op, a, right);
        CombineAdd(op, left - todo, a, right);
        result, todo := result + pairs, todo - {a};
        assert left - todo == (left - (todo + {a})) + {a};
      }
      assert left - {} == left;
    }

    method Against(op: Token, a: Value, right: set<Value>) returns (result: set<Value>)
      ensures result == CombineAll(op, {a}, right)
    {
      result := {};
      var todo := right;
      while todo != {}
        invariant todo <= right && result == CombineAll(op, {a}, right - todo)
        decreases todo
      {
        var b :| b in todo;
        result, todo := result + Combine(op, a, b), todo - {b};
      }
      assert right - {} == right;
    }

    lemma CombineAdd(op: Token, left: set<Value>, a: Value, right: set<Value>)
      ensures CombineAll(op, left + {a}, right) == CombineAll(op, left, right) + CombineAll(op, {a}, right)
    {
    }

    /** The possible values of a function, over all rows of arguments. */
    method Apply(name: string, arguments: seq<set<Value>>) returns (values: set<Value>)
      ensures values == CallValues(name, arguments, context)
    {
      if name == "always" && arguments == [] {
        values := {Known(Bool(true))};
      } else if name == "format" && arguments != [] {
        values := FormatRows(Rows(arguments));
      } else if name == "fromJSON" && |arguments| == 1 {
        values := Decodings(arguments[0]);
      } else if TestNamed(name).Some? && |arguments| == 2 {
        values := Tests(TestNamed(name).value, arguments[0], arguments[1]);
      } else {
        values := {Unknown};
      }
    }

    method FormatRows(rows: set<seq<Value>>) returns (values: set<Value>)
      requires [] !in rows
      ensures values == set row | row in rows :: FormatRow(row, context)
    {
      values := {};
      var todo := rows;
      while todo != {}
        invariant todo <= rows && values == set row | row in rows - todo :: FormatRow(row, context)
        decreases todo
      {
        var row :| row in todo;
        values := values + {FormatRow(row, context)};
        todo := todo - {row};
      }
      assert rows - {} == rows;
    }

    method Decodings(texts: set<Value>) returns (values: set<Value>)
      ensures values == set a | a in texts :: Decoded(a, context)
    {
      values := {};
      var todo := texts;
      while todo != {}
        invariant todo <= texts && values == set a | a in texts - todo :: Decoded(a, context)
        decreases todo
      {
        var a :| a in todo;
        values := values + {Decoded(a, context)};
        todo := todo - {a};
      }
      assert texts - {} == texts;
    }

    /** A text test over all pairs of operands. */
    method Tests(test: Test, left: set<Value>, right: set<Value>) returns (values: set<Value>)
      ensures values == TestAll(test, left, right, context)
    {
      values := {};
      var todo := left;
      while todo != {}
        invariant todo <= left && values == TestAll(test, left - todo, right, context)
        decreases todo
      {
        var a :| a in todo;
        var row := TestsOf(test, a, right);
        TestAdd(test, left - todo, a, right);
        values, todo := values + row, todo - {a};
        assert left - todo == (left - (todo + {a})) + {a};
      }
      assert left - {} == left;
    }

    method TestsOf(test: Test, a: Value, right: set<Value>) returns (values: set<Value>)
      ensures values == TestAll(test, {a}, right, context)
    {
      values := {};
      var todo := right;
      while todo != {}
        invariant todo <= right && values == TestAll(test, {a}, right - todo, context)
        decreases todo
      {
        var b :| b in todo;
        values, todo := values + TestValues(test, a, b, context), todo - {b};
      }
      assert right - {} == right;
    }

    lemma TestAdd(test: Test, left: set<Value>, a: Value, right: set<Value>)
      ensures TestAll(test, left + {a}, right, context)
           == TestAll(test, left, right, context) + TestAll(test, {a}, right, context)
    {
    }
  }
}
