/** The token grammar that `Expression.parse` and `Expression.atom` accept: trees, the parser the
    methods implement, the printer, and the proof that the two are inverse to each other. */
module Syntax {
  import opened Wrappers

  /** One match of the token pattern, by its capture group: punctuation and operators, a quoted literal
      (the text between its outer quotes, inner quotes still doubled), or a name, keyword or number. */
  datatype Token =
    | Bang | Open | Close | Comma | OrOp | AndOp | EqOp | NeOp
    | Literal(body: string)
    | Word(text: string)

  /** What one parse consumes. Parentheses stay in the tree, so a tree has exactly one token list.
      A `Leaf` is a quoted literal, a keyword, a number or a context name. */
  datatype Expr =
    | Leaf(token: Token)
    | Not(operand: Expr)
    | Paren(inner: Expr)
    | Call(name: Token, args: seq<Expr>)
    | Binary(op: Token, left: Expr, right: Expr)

  const ATOM: nat := 3

  predicate IsOperator(token: Token, level: nat) {
    LevelOf(token) == level
  }

  /** The level of a binary operator; every other token is below all levels. */
  function LevelOf(token: Token): int {
    match token
    case OrOp => 0
    case AndOp => 1
    case EqOp | NeOp => 2
    case _ => -1
  }

  // ---- the parser ------------------------------------------------------------------------

  type Parsed = Result<(Expr, nat), string>

  const INCOMPLETE := "incomplete expression"
  const UNEXPECTED := "unexpected expression token"
  const TRAILING := "trailing expression tokens"

  predicate TokenAt(ts: seq<Token>, i: nat, token: Token) {
    i < |ts| && ts[i] == token
  }

  predicate OperatorAt(ts: seq<Token>, i: nat, level: nat) {
    i < |ts| && IsOperator(ts[i], level)
  }

  /** One precedence level from token `i`; the result carries the index after the last token used. */
  function ParseLevel(ts: seq<Token>, i: nat, level: nat): (r: Parsed)
    requires i <= |ts| && level <= ATOM
    ensures r.Success? ==> i < r.value.1 <= |ts|
    decreases |ts| - i, ATOM + 1 - level
  {
    if level == ATOM then ParseAtom(ts, i)
    else
      var (left, j) :- ParseLevel(ts, i, level + 1);
      ParseRest(ts, j, level, left)
  }

  /** The left-associative loop of one level, after the operand `left`. */
  function ParseRest(ts: seq<Token>, i: nat, level: nat, left: Expr): (r: Parsed)
    requires i <= |ts| && level < ATOM
    ensures r.Success? ==> i <= r.value.1 <= |ts|
    decreases |ts| - i, ATOM + 1
  {
    if OperatorAt(ts, i, level) then
      var (right, j) :- ParseLevel(ts, i + 1, level + 1);
      ParseRest(ts, j, level, Binary(ts[i], left, right))
    else
      Success((left, i))
  }

  function ParseAtom(ts: seq<Token>, i: nat): (r: Parsed)
    requires i <= |ts|
    ensures r.Success? ==> i < r.value.1 <= |ts|
    decreases |ts| - i, 0
  {
    if i == |ts| then Failure(INCOMPLETE)
    else if ts[i] == Bang then
      var (operand, j) :- ParseAtom(ts, i + 1);
      Success((Not(operand), j))
    else if ts[i] == Open then
      var (inner, j) :- ParseLevel(ts, i + 1, 0);
      if TokenAt(ts, j, Close) then Success((Paren(inner), j + 1)) else Failure(UNEXPECTED)
    else if ts[i].Literal? || !TokenAt(ts, i + 1, Open) then Success((Leaf(ts[i]), i + 1))
    else
      var (args, j) :- ParseArguments(ts, i + 2);
      if TokenAt(ts, j, Close) then Success((Call(ts[i], args), j + 1)) else Failure(UNEXPECTED)
  }

  function ParseArguments(ts: seq<Token>, i: nat): (r: Result<(seq<Expr>, nat), string>)
    requires i <= |ts|
    ensures r.Success? ==> i <= r.value.1 <= |ts|
    decreases |ts| - i, ATOM + 2
  {
    if TokenAt(ts, i, Close) then Success(([], i))
    else
      var (first, j) :- ParseLevel(ts, i, 0);
      ParseMoreArguments(ts, j, [first])
  }

  function ParseMoreArguments(ts: seq<Token>, i: nat, done: seq<Expr>): (r: Result<(seq<Expr>, nat), string>)
    requires i <= |ts|
    ensures r.Success? ==> i <= r.value.1 <= |ts|
    decreases |ts| - i, ATOM + 2
  {
    if TokenAt(ts, i, Comma) then
      var (next, j) :- ParseLevel(ts, i + 1, 0);
      ParseMoreArguments(ts, j, done + [next])
    else
      Success((done, i))
  }

  /** A complete expression: one parse and no trailing token. */
  function ParseAll(ts: seq<Token>): (r: Result<Expr, string>)
  {
    var (e, j) :- ParseLevel(ts, 0, 0);
    if j == |ts| then Success(e) else Failure(TRAILING)
  }

  // ---- the printer -----------------------------------------------------------------------

  function Print(e: Expr): (p: seq<Token>)
    ensures p != []
    decreases e, 0
  {
    match e
    case Leaf(token) => [token]
    case Not(operand) => [Bang] + Print(operand)
    case Paren(inner) => [Open] + Print(inner) + [Close]
    case Call(name, args) => [name, Open] + PrintArguments(args) + [Close]
    case Binary(op, left, right) => Print(left) + [op] + Print(right)
  }

  function PrintArguments(args: seq<Expr>): (p: seq<Token>)
    decreases args, 1
  {
    if args == [] then [] else Print(args[0]) + PrintMore(args[1..])
  }

  function PrintMore(args: seq<Expr>): (p: seq<Token>)
    decreases args, 0
  {
    if args == [] then [] else [Comma] + Print(args[0]) + PrintMore(args[1..])
  }

  /** The loosest level at which a tree can stand without parentheses. */
  function Precedence(e: Expr): (level: nat)
  {
    if e.Binary? && LevelOf(e.op) >= 0 then LevelOf(e.op) else ATOM
  }

  /** Trees whose printed form reads back as the same tree: operators at their own level and left
      associative, and no leaf or argument that a neighbouring token would turn into something else. */
  predicate Readable(e: Expr, level: nat)
    decreases e, 0
  {
    level <= Precedence(e) &&
    match e
    case Leaf(token) => token != Bang && token != Open
    case Not(operand) => Readable(operand, ATOM)
    case Paren(inner) => Readable(inner, 0)
    case Call(name, args) =>
      && name != Bang && name != Open && !name.Literal?
      && (args != [] ==> Print(args[0])[0] != Close)
      && (forall k :: 0 <= k < |args| ==> Readable(args[k], 0))
    case Binary(op, left, right) =>
      && IsOperator(op, Precedence(e))
      && Readable(left, Precedence(e)) && Readable(right, Precedence(e) + 1)
  }

  // ---- printing, then parsing ------------------------------------------------------------

  /** The tokens from `i` up to `j` are exactly `p`. */
  predicate Spans(ts: seq<Token>, i: nat, j: nat, p: seq<Token>) {
    i <= j <= |ts| && ts[i..j] == p
  }

  lemma SpansConcat(ts: seq<Token>, i: nat, j: nat, p: seq<Token>, q: seq<Token>)
    ensures Spans(ts, i, j, p + q) <==> Spans(ts, i, i + |p|, p) && Spans(ts, i + |p|, j, q)
  {
    if i + |p| <= j <= |ts| {
      assert ts[i..j] == ts[i..i + |p|] + ts[i + |p|..j];
      assert (p + q)[..|p|] == p && (p + q)[|p|..] == q;
    }
  }

  lemma SpansOne(ts: seq<Token>, i: nat, j: nat, token: Token)
    ensures Spans(ts, i, j, [token]) <==> TokenAt(ts, i, token) && j == i + 1
  {
    if i < |ts| {
      assert ts[i..i + 1] == [ts[i]];
    }
  }

  lemma SpansFirst(ts: seq<Token>, i: nat, j: nat, token: Token, q: seq<Token>)
    ensures Spans(ts, i, j, [token] + q) <==> TokenAt(ts, i, token) && Spans(ts, i + 1, j, q)
  {
    SpansConcat(ts, i, j, [token], q);
    SpansOne(ts, i, i + 1, token);
  }

  lemma SpansLast(ts: seq<Token>, i: nat, j: nat, p: seq<Token>, token: Token)
    ensures Spans(ts, i, j, p + [token]) <==> 0 < j && Spans(ts, i, j - 1, p) && TokenAt(ts, j - 1, token)
  {
    SpansConcat(ts, i, j, p, [token]);
    SpansOne(ts, i + |p|, j, token);
  }

  /** Nothing at index `i` that would extend an expression of this level. */
  predicate Stops(ts: seq<Token>, i: nat, level: nat) {
    i < |ts| ==> ts[i] != Open && LevelOf(ts[i]) < level
  }

  predicate Placed(ts: seq<Token>, i: nat, j: nat, level: nat, e: Expr) {
    Readable(e, level) && Spans(ts, i, j, Print(e)) && Stops(ts, j, level)
  }

  lemma {:induction false} ReadBack(ts: seq<Token>, i: nat, j: nat, level: nat, e: Expr)
    requires level <= ATOM && Placed(ts, i, j, level, e)
    ensures ParseLevel(ts, i, level) == Success((e, j))
    decreases e, 2, 0
  {
    if level == ATOM {
      ReadBackAtom(ts, i, j, e);
    } else {
      ReadBackSpine(ts, i, j, level, e);
    }
  }

  /** The operands of one level gather on the left: parsing reaches the loop with `e` already built. */
  lemma {:induction false} ReadBackSpine(ts: seq<Token>, i: nat, j: nat, level: nat, e: Expr)
    requires level < ATOM && Readable(e, level) && Spans(ts, i, j, Print(e)) && Stops(ts, j, level + 1)
    ensures ParseLevel(ts, i, level) == ParseRest(ts, j, level, e)
    decreases e, 1, ATOM - level
  {
    if Precedence(e) > level {
      Tighter(e, level, level + 1);
      if level + 1 == ATOM {
        ReadBackAtom(ts, i, j, e);
      } else {
        ReadBackSpine(ts, i, j, level + 1, e);
        RestStops(ts, j, level + 1, e);
      }
      LevelStarts(ts, i, j, level, e);
    } else {
      var m := BinarySpans(ts, i, j, e.op, e.left, e.right);
      ReadBackSpine(ts, i, m, level, e.left);
      ReadBack(ts, m + 1, j, level + 1, e.right);
      RestContinues(ts, m, j, level, e);
    }
  }

  lemma RestStops(ts: seq<Token>, j: nat, level: nat, e: Expr)
    requires level < ATOM && j <= |ts| && Stops(ts, j, level)
    ensures ParseRest(ts, j, level, e) == Success((e, j))
  {
  }

  lemma LevelStarts(ts: seq<Token>, i: nat, j: nat, level: nat, e: Expr)
    requires level < ATOM && i <= |ts| && ParseLevel(ts, i, level + 1) == Success((e, j))
    ensures ParseLevel(ts, i, level) == ParseRest(ts, j, level, e)
  {
  }

  lemma RestContinues(ts: seq<Token>, m: nat, j: nat, level: nat, e: Expr)
    requires level < ATOM && e.Binary? && OperatorAt(ts, m, level) && ts[m] == e.op
    requires ParseLevel(ts, m + 1, level + 1) == Success((e.right, j))
    ensures ParseRest(ts, m, level, e.left) == ParseRest(ts, j, level, e)
  {
  }

  lemma BinarySpans(ts: seq<Token>, i: nat, j: nat, op: Token, left: Expr, right: Expr) returns (m: nat)
    requires Spans(ts, i, j, Print(Binary(op, left, right)))
    ensures Spans(ts, i, m, Print(left)) && TokenAt(ts, m, op) && Spans(ts, m + 1, j, Print(right))
  {
    m := i + |Print(left)|;
    SpansConcat(ts, i, j, Print(left) + [op], Print(right));
    SpansLast(ts, i, m + 1, Print(left), op);
  }

  lemma Tighter(e: Expr, from: nat, level: nat)
    requires Readable(e, from) && level <= Precedence(e)
    ensures Readable(e, level)
  {
  }

  lemma {:induction false} ReadBackAtom(ts: seq<Token>, i: nat, j: nat, e: Expr)
    requires Placed(ts, i, j, ATOM, e)
    ensures ParseAtom(ts, i) == Success((e, j))
    decreases e, 0, 0
  {
    match e
    case Leaf(token) =>
      SpansOne(ts, i, j, token);
    case Not(operand) =>
      NotSpans(ts, i, j, operand);
      ReadBackAtom(ts, i + 1, j, operand);
      NotParses(ts, i, j, operand);
    case Paren(inner) =>
      assert |Print(e)| == |Print(inner)| + 2;
      ParenSpans(ts, i, j, inner);
      ReadBack(ts, i + 1, j - 1, 0, inner);
      GroupParses(ts, i, j, inner);
    case Call(name, args) =>
      assert |Print(e)| == |PrintArguments(args)| + 3;
      CallSpans(ts, i, j, name, args);
      ReadBackArguments(ts, i + 2, j - 1, args);
      CallParses(ts, i, j, name, args);
  }

  lemma NotParses(ts: seq<Token>, i: nat, j: nat, operand: Expr)
    requires TokenAt(ts, i, Bang) && ParseAtom(ts, i + 1) == Success((operand, j))
    ensures ParseAtom(ts, i) == Success((Not(operand), j))
  {
  }

  lemma GroupParses(ts: seq<Token>, i: nat, j: nat, inner: Expr)
    requires 0 < j && TokenAt(ts, i, Open) && TokenAt(ts, j - 1, Close)
      && ParseLevel(ts, i + 1, 0) == Success((inner, j - 1))
    ensures ParseAtom(ts, i) == Success((Paren(inner), j))
  {
  }

  lemma CallParses(ts: seq<Token>, i: nat, j: nat, name: Token, args: seq<Expr>)
    requires TokenAt(ts, i, name) && name != Bang && name != Open && !name.Literal? && TokenAt(ts, i + 1, Open)
    requires 0 < j && TokenAt(ts, j - 1, Close) && ParseArguments(ts, i + 2) == Success((args, j - 1))
    ensures ParseAtom(ts, i) == Success((Call(name, args), j))
  {
  }

  /** A negation spans its operand and the sign before it. */
  lemma NotSpans(ts: seq<Token>, i: nat, j: nat, operand: Expr)
    ensures Spans(ts, i, j, Print(Not(operand))) <==> TokenAt(ts, i, Bang) && Spans(ts, i + 1, j, Print(operand))
  {
    SpansFirst(ts, i, j, Bang, Print(operand));
  }

  lemma ParenSpans(ts: seq<Token>, i: nat, j: nat, inner: Expr)
    requires i + 2 <= j
    ensures Spans(ts, i, j, Print(Paren(inner))) <==>
            TokenAt(ts, i, Open) && Spans(ts, i + 1, j - 1, Print(inner)) && TokenAt(ts, j - 1, Close)
  {
    SpansLast(ts, i, j, [Open] + Print(inner), Close);
    SpansFirst(ts, i, j - 1, Open, Print(inner));
  }

  lemma CallSpans(ts: seq<Token>, i: nat, j: nat, name: Token, args: seq<Expr>)
    requires i + 3 <= j
    ensures Spans(ts, i, j, Print(Call(name, args))) <==>
            && TokenAt(ts, i, name) && TokenAt(ts, i + 1, Open)
            && Spans(ts, i + 2, j - 1, PrintArguments(args)) && TokenAt(ts, j - 1, Close)
  {
    var inside := PrintArguments(args);
    SpansLast(ts, i, j, [name, Open] + inside, Close);
    assert [name, Open] + inside == [name] + ([Open] + inside);
    SpansFirst(ts, i, j - 1, name, [Open] + inside);
    SpansFirst(ts, i + 1, j - 1, Open, inside);
  }

  lemma {:induction false} ReadBackArguments(ts: seq<Token>, i: nat, j: nat, args: seq<Expr>)
    requires forall k :: 0 <= k < |args| ==> Readable(args[k], 0)
    requires args != [] ==> Print(args[0])[0] != Close
    requires Spans(ts, i, j, PrintArguments(args)) && TokenAt(ts, j, Close)
    ensures ParseArguments(ts, i) == Success((args, j))
    decreases args, 1
  {
    if args != [] {
      var m := i + |Print(args[0])|;
      SpansConcat(ts, i, j, Print(args[0]), PrintMore(args[1..]));
      assert ts[i] == ts[i..m][0];
      MoreStops(ts, m, j, args[1..]);
      ReadBack(ts, i, m, 0, args[0]);
      ReadBackMore(ts, m, j, [args[0]], args[1..]);
      assert [args[0]] + args[1..] == args;
    }
  }

  /** After an argument comes a comma or the closing parenthesis, so the argument ends there. */
  lemma MoreStops(ts: seq<Token>, i: nat, j: nat, rest: seq<Expr>)
    requires Spans(ts, i, j, PrintMore(rest)) && TokenAt(ts, j, Close)
    ensures Stops(ts, i, 0)
  {
    if rest != [] {
      assert ts[i] == ts[i..j][0] == Comma;
    }
  }

  lemma {:induction false} ReadBackMore(ts: seq<Token>, i: nat, j: nat, done: seq<Expr>, rest: seq<Expr>)
    requires forall k :: 0 <= k < |rest| ==> Readable(rest[k], 0)
    requires Spans(ts, i, j, PrintMore(rest)) && TokenAt(ts, j, Close)
    ensures ParseMoreArguments(ts, i, done) == Success((done + rest, j))
    decreases rest, 0
  {
    if rest == [] {
      assert done + rest == done;
    } else {
      var m := i + 1 + |Print(rest[0])|;
      SpansConcat(ts, i, j, [Comma] + Print(rest[0]), PrintMore(rest[1..]));
      SpansFirst(ts, i, m, Comma, Print(rest[0]));
      MoreStops(ts, m, j, rest[1..]);
      ReadBack(ts, i + 1, m, 0, rest[0]);
      ReadBackMore(ts, m, j, done + [rest[0]], rest[1..]);
      assert done + [rest[0]] + rest[1..] == done + rest;
    }
  }

  // ---- parsing, then printing ------------------------------------------------------------

  lemma {:induction false} ParsedLevel(ts: seq<Token>, i: nat, level: nat)
    requires i <= |ts| && level <= ATOM && ParseLevel(ts, i, level).Success?
    ensures var (e, j) := ParseLevel(ts, i, level).value; Readable(e, level) && Spans(ts, i, j, Print(e))
    decreases |ts| - i, ATOM + 2 - level
  {
    if level == ATOM {
      ParsedAtom(ts, i);
    } else {
      ParsedLevel(ts, i, level + 1);
      var (left, j) := ParseLevel(ts, i, level + 1).value;
      Looser(left, level + 1, level);
      ParsedRest(ts, i, j, level, left);
    }
  }

  lemma Looser(e: Expr, from: nat, level: nat)
    requires Readable(e, from) && level <= from
    ensures Readable(e, level)
  {
  }

  lemma {:induction false} ParsedRest(ts: seq<Token>, start: nat, i: nat, level: nat, left: Expr)
    requires i <= |ts| && level < ATOM && ParseRest(ts, i, level, left).Success?
    requires Readable(left, level) && Spans(ts, start, i, Print(left))
    ensures var (e, j) := ParseRest(ts, i, level, left).value; Readable(e, level) && Spans(ts, start, j, Print(e))
    decreases |ts| - i, ATOM + 1
  {
    if OperatorAt(ts, i, level) {
      var right, j := RestOf(ts, i, level, left);
      ParsedLevel(ts, i + 1, level + 1);
      BinaryReadable(ts[i], level, left, right);
      SpansBinary(ts, start, i, j, left, right);
      ParsedRest(ts, start, j, level, Binary(ts[i], left, right));
    }
  }

  lemma RestOf(ts: seq<Token>, i: nat, level: nat, left: Expr) returns (right: Expr, j: nat)
    requires level < ATOM && OperatorAt(ts, i, level) && ParseRest(ts, i, level, left).Success?
    ensures ParseLevel(ts, i + 1, level + 1) == Success((right, j)) && i + 1 < j <= |ts|
    ensures ParseRest(ts, i, level, left) == ParseRest(ts, j, level, Binary(ts[i], left, right))
  {
    right, j := ParseLevel(ts, i + 1, level + 1).value.0, ParseLevel(ts, i + 1, level + 1).value.1;
  }

  lemma BinaryReadable(op: Token, level: nat, left: Expr, right: Expr)
    requires level < ATOM && IsOperator(op, level) && Readable(left, level) && Readable(right, level + 1)
    ensures Readable(Binary(op, left, right), level)
  {
  }

  lemma SpansBinary(ts: seq<Token>, start: nat, i: nat, j: nat, left: Expr, right: Expr)
    requires i < |ts| && Spans(ts, start, i, Print(left)) && Spans(ts, i + 1, j, Print(right))
    ensures Spans(ts, start, j, Print(Binary(ts[i], left, right)))
  {
    SpansLast(ts, start, i + 1, Print(left), ts[i]);
    SpansConcat(ts, start, j, Print(left) + [ts[i]], Print(right));
  }

  lemma {:induction false} ParsedAtom(ts: seq<Token>, i: nat)
    requires i <= |ts| && ParseAtom(ts, i).Success?
    ensures var (e, j) := ParseAtom(ts, i).value; Readable(e, ATOM) && Spans(ts, i, j, Print(e))
    decreases |ts| - i, 1
  {
    if ts[i] == Bang {
      ParsedAtom(ts, i + 1);
      var (operand, j) := ParseAtom(ts, i + 1).value;
      NotSpans(ts, i, j, operand);
    } else if ts[i] == Open {
      ParsedGroup(ts, i);
    } else if ts[i].Literal? || !TokenAt(ts, i + 1, Open) {
      SpansOne(ts, i, i + 1, ts[i]);
    } else {
      ParsedCall(ts, i);
    }
  }

  lemma {:induction false} ParsedGroup(ts: seq<Token>, i: nat)
    requires TokenAt(ts, i, Open) && ParseAtom(ts, i).Success?
    ensures var (e, j) := ParseAtom(ts, i).value; Readable(e, ATOM) && Spans(ts, i, j, Print(e))
    decreases |ts| - i, 0
  {
    var inner, j := GroupOf(ts, i);
    ParsedLevel(ts, i + 1, 0);
    ParenSpans(ts, i, j + 1, inner);
  }

  lemma GroupOf(ts: seq<Token>, i: nat) returns (inner: Expr, j: nat)
    requires TokenAt(ts, i, Open) && ParseAtom(ts, i).Success?
    ensures ParseLevel(ts, i + 1, 0) == Success((inner, j)) && TokenAt(ts, j, Close) && i < j
    ensures ParseAtom(ts, i) == Success((Paren(inner), j + 1))
  {
    inner, j := ParseLevel(ts, i + 1, 0).value.0, ParseLevel(ts, i + 1, 0).value.1;
  }

  lemma {:induction false} ParsedCall(ts: seq<Token>, i: nat)
    requires i < |ts| && ts[i] != Bang && ts[i] != Open && !ts[i].Literal? && TokenAt(ts, i + 1, Open)
    requires ParseAtom(ts, i).Success?
    ensures var (e, j) := ParseAtom(ts, i).value; Readable(e, ATOM) && Spans(ts, i, j, Print(e))
    decreases |ts| - i, 0
  {
    var args, j := CallOf(ts, i);
    ParsedArguments(ts, i + 2);
    CallReadable(ts[i], args);
    CallSpans(ts, i, j + 1, ts[i], args);
  }

  lemma CallReadable(name: Token, args: seq<Expr>)
    requires name != Bang && name != Open && !name.Literal? && ReadableArguments(args)
    ensures Readable(Call(name, args), ATOM)
  {
  }

  lemma CallOf(ts: seq<Token>, i: nat) returns (args: seq<Expr>, j: nat)
    requires i < |ts| && ts[i] != Bang && ts[i] != Open && !ts[i].Literal? && TokenAt(ts, i + 1, Open)
    requires ParseAtom(ts, i).Success?
    ensures ParseArguments(ts, i + 2) == Success((args, j)) && TokenAt(ts, j, Close) && i + 1 < j
    ensures ParseAtom(ts, i) == Success((Call(ts[i], args), j + 1))
  {
    args, j := ParseArguments(ts, i + 2).value.0, ParseArguments(ts, i + 2).value.1;
  }

  predicate ReadableArguments(args: seq<Expr>) {
    && (args != [] ==> Print(args[0])[0] != Close)
    && (forall k :: 0 <= k < |args| ==> Readable(args[k], 0))
  }

  lemma {:induction false} ParsedArguments(ts: seq<Token>, i: nat)
    requires i <= |ts| && ParseArguments(ts, i).Success?
    ensures var (args, j) := ParseArguments(ts, i).value;
      ReadableArguments(args) && Spans(ts, i, j, PrintArguments(args))
    decreases |ts| - i, ATOM + 3, 1
  {
    if !TokenAt(ts, i, Close) {
      ParsedLevel(ts, i, 0);
      var (first, m) := ParseLevel(ts, i, 0).value;
      assert ts[i] == ts[i..m][0];
      ParsedMore(ts, m, [first]);
      var (args, j) := ParseMoreArguments(ts, m, [first]).value;
      assert args[0] == first;
      SpansConcat(ts, i, j, Print(first), PrintMore(args[1..]));
    }
  }

  lemma {:induction false} ParsedMore(ts: seq<Token>, i: nat, done: seq<Expr>)
    requires i <= |ts| && ParseMoreArguments(ts, i, done).Success?
    requires forall k :: 0 <= k < |done| ==> Readable(done[k], 0)
    ensures var (args, j) := ParseMoreArguments(ts, i, done).value;
      && done <= args && Spans(ts, i, j, PrintMore(args[|done|..]))
      && (forall k :: 0 <= k < |args| ==> Readable(args[k], 0))
    decreases |ts| - i, ATOM + 3, 0
  {
    if TokenAt(ts, i, Comma) {
      ParsedLevel(ts, i + 1, 0);
      var (next, m) := ParseLevel(ts, i + 1, 0).value;
      ParsedMore(ts, m, done + [next]);
      var (args, j) := ParseMoreArguments(ts, m, done + [next]).value;
      var rest := args[|done|..];
      assert rest[0] == next && rest[1..] == args[|done| + 1..];
      SpansFirst(ts, i, m, Comma, Print(next));
      SpansConcat(ts, i, j, [Comma] + Print(next), PrintMore(rest[1..]));
    }
  }

  // ---- the grammar -----------------------------------------------------------------------

  /** A token list parses to a tree exactly when that tree is readable and prints as the list; so the
      accepted lists are the printed readable trees, and no list has two readings. */
  lemma GrammarExact(ts: seq<Token>, e: Expr)
    ensures ParseAll(ts) == Success(e) <==> Readable(e, 0) && Print(e) == ts
  {
    assert ts[0..|ts|] == ts;
    if Readable(e, 0) && Print(e) == ts {
      ReadBack(ts, 0, |ts|, 0, e);
    }
    if ParseAll(ts) == Success(e) {
      ParsedLevel(ts, 0, 0);
    }
  }

  // ---- parentheses where needed ----------------------------------------------------------

  lemma NameReads(a: Token, level: nat)
    requires a.Word? && level <= ATOM
    ensures Readable(Leaf(a), level) && Print(Leaf(a)) == [a]
  {
  }

  lemma OperatorReads(op: Token, left: Expr, right: Expr, level: nat)
    requires level < ATOM && IsOperator(op, level) && Readable(left, level) && Readable(right, level + 1)
    ensures Readable(Binary(op, left, right), level)
    ensures Print(Binary(op, left, right)) == Print(left) + [op] + Print(right)
  {
  }

  /** Comparisons bind tighter than `&&`, and `&&` tighter than `||`: on the right, */
  lemma BindsRight(a: Token, b: Token, c: Token, d: Token, eq: Token)
    requires a.Word? && b.Word? && c.Word? && d.Word? && (eq == EqOp || eq == NeOp)
    ensures ParseAll([a, OrOp, b, AndOp, c, eq, d])
         == Success(Binary(OrOp, Leaf(a), Binary(AndOp, Leaf(b), Binary(eq, Leaf(c), Leaf(d)))))
  {
    var compared := Binary(eq, Leaf(c), Leaf(d));
    var both := Binary(AndOp, Leaf(b), compared);
    NameReads(a, 0);
    NameReads(b, 1);
    NameReads(c, 2);
    NameReads(d, 3);
    OperatorReads(eq, Leaf(c), Leaf(d), 2);
    OperatorReads(AndOp, Leaf(b), compared, 1);
    OperatorReads(OrOp, Leaf(a), both, 0);
    assert Print(Binary(OrOp, Leaf(a), both)) == [a, OrOp, b, AndOp, c, eq, d];
    GrammarExact([a, OrOp, b, AndOp, c, eq, d], Binary(OrOp, Leaf(a), both));
  }

  /** and on the left. */
  lemma BindsLeft(a: Token, b: Token, c: Token, d: Token, eq: Token)
    requires a.Word? && b.Word? && c.Word? && d.Word? && (eq == EqOp || eq == NeOp)
    ensures ParseAll([a, eq, b, AndOp, c, OrOp, d])
         == Success(Binary(OrOp, Binary(AndOp, Binary(eq, Leaf(a), Leaf(b)), Leaf(c)), Leaf(d)))
  {
    var compared := Binary(eq, Leaf(a), Leaf(b));
    var both := Binary(AndOp, compared, Leaf(c));
    NameReads(a, 2);
    NameReads(b, 3);
    NameReads(c, 2);
    NameReads(d, 1);
    OperatorReads(eq, Leaf(a), Leaf(b), 2);
    Looser(compared, 2, 1);
    OperatorReads(AndOp, compared, Leaf(c), 1);
    Looser(both, 1, 0);
    OperatorReads(OrOp, both, Leaf(d), 0);
    assert Print(Binary(OrOp, both, Leaf(d))) == [a, eq, b, AndOp, c, OrOp, d];
    GrammarExact([a, eq, b, AndOp, c, OrOp, d], Binary(OrOp, both, Leaf(d)));
  }

  /** Operators that bind alike are read from the left: each with itself, and the two comparisons. */
  lemma Associates(a: Token, b: Token, c: Token, first: Token, second: Token)
    requires a.Word? && b.Word? && c.Word?
    requires (first == second && first in {OrOp, AndOp}) || (first in {EqOp, NeOp} && second in {EqOp, NeOp})
    ensures ParseAll([a, first, b, second, c])
         == Success(Binary(second, Binary(first, Leaf(a), Leaf(b)), Leaf(c)))
  {
    var level: nat := LevelOf(first);
    NameReads(a, level);
    NameReads(b, level + 1);
    NameReads(c, level + 1);
    OperatorReads(first, Leaf(a), Leaf(b), level);
    OperatorReads(second, Binary(first, Leaf(a), Leaf(b)), Leaf(c), level);
    Looser(Binary(second, Binary(first, Leaf(a), Leaf(b)), Leaf(c)), level, 0);
    assert Print(Binary(second, Binary(first, Leaf(a), Leaf(b)), Leaf(c))) == [a, first, b, second, c];
    GrammarExact([a, first, b, second, c], Binary(second, Binary(first, Leaf(a), Leaf(b)), Leaf(c)));
  }

  /** `!` binds tighter than any operator. */
  lemma NegatesFirst(a: Token, b: Token, op: Token)
    requires a.Word? && b.Word? && op in {OrOp, AndOp, EqOp, NeOp}
    ensures ParseAll([Bang, a, op, b]) == Success(Binary(op, Not(Leaf(a)), Leaf(b)))
  {
    var level: nat := LevelOf(op);
    NameReads(a, ATOM);
    NameReads(b, level + 1);
    assert Readable(Not(Leaf(a)), level) && Print(Not(Leaf(a))) == [Bang, a];
    OperatorReads(op, Not(Leaf(a)), Leaf(b), level);
    Looser(Binary(op, Not(Leaf(a)), Leaf(b)), level, 0);
    assert Print(Binary(op, Not(Leaf(a)), Leaf(b))) == [Bang, a, op, b];
    GrammarExact([Bang, a, op, b], Binary(op, Not(Leaf(a)), Leaf(b)));
  }

  /** A tree over the tokens a selector author would write: names and literals as leaves, names as
      functions, and binary operators. */
  predicate Sensible(e: Expr)
  {
    match e
    case Leaf(token) => token.Word? || token.Literal?
    case Not(operand) => Sensible(operand)
    case Paren(inner) => Sensible(inner)
    case Call(name, args) => name.Word? && (forall k :: 0 <= k < |args| ==> Sensible(args[k]))
    case Binary(op, left, right) => LevelOf(op) >= 0 && Sensible(left) && Sensible(right)
  }

  /** The tree with a `Paren` wherever its shape would otherwise be read differently at this level. */
  function Parenthesize(e: Expr, level: nat): (r: Expr)
    decreases e, 1
  {
    if Precedence(e) < level then Paren(Inside(e)) else Inside(e)
  }

  function Inside(e: Expr): (r: Expr)
    ensures Precedence(r) == Precedence(e)
    decreases e, 0
  {
    match e
    case Leaf(_) => e
    case Not(operand) => Not(Parenthesize(operand, ATOM))
    case Paren(inner) => Paren(Parenthesize(inner, 0))
    case Call(name, args) => Call(name, seq(|args|, k requires 0 <= k < |args| => Parenthesize(args[k], 0)))
    case Binary(op, left, right) =>
      Binary(op, Parenthesize(left, Precedence(e)), Parenthesize(right, Precedence(e) + 1))
  }

  /** Every sensible tree becomes readable, so it has a token list that reads back as that tree. */
  lemma {:induction false} ParenthesizeReadable(e: Expr, level: nat)
    requires Sensible(e) && level <= ATOM
    ensures Readable(Parenthesize(e, level), level)
    ensures Print(Parenthesize(e, level))[0] != Close
    decreases e, 1
  {
    InsideReadable(e);
    if level <= Precedence(e) {
      Looser(Inside(e), Precedence(e), level);
    } else {
      Looser(Inside(e), Precedence(e), 0);
    }
  }

  lemma {:induction false} InsideReadable(e: Expr)
    requires Sensible(e)
    ensures Readable(Inside(e), Precedence(e)) && Print(Inside(e))[0] != Close
    decreases e, 0
  {
    match e
    case Leaf(_) =>
    case Not(operand) => ParenthesizeReadable(operand, ATOM);
    case Paren(inner) => ParenthesizeReadable(inner, 0);
    case Call(name, args) =>
      forall k | 0 <= k < |args|
        ensures Readable(Parenthesize(args[k], 0), 0) && Print(Parenthesize(args[k], 0))[0] != Close
      {
        ParenthesizeReadable(args[k], 0);
      }
    case Binary(op, left, right) =>
      ParenthesizeReadable(left, Precedence(e));
      ParenthesizeReadable(right, Precedence(e) + 1);
  }
}
