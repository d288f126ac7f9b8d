/** Selector and condition values: `expression` and `runnable`, and what follows from the parser and the
    soundness proof for the jobs a workflow can run. */
module Conditions {
  import opened Wrappers
  import opened Scalars
  import opened Syntax
  import opened Meaning
  import opened Interpreter

  /** The text to evaluate, after decoding: a scalar that stands for itself, a value that is no scalar, or
      an expression given by its tokens (or the message of the token that did not match) and by the build
      labels that occur in its text. */
  datatype Source =
    | Plain(value: Scalar)
    | Opaque
    | Formula(tokens: Result<seq<Token>, string>, labels: set<string>)

  function Parsed(source: Source): Result<Expr, string>
    requires source.Formula?
  {
    match source.tokens
    case Failure(message) => Failure(message)
    case Success(ts) => ParseAll(ts)
  }

  /** The unknown element, and every literal build label so that a fallback stays visible. */
  function Unreadable(labels: set<string>): set<Value> {
    {Unknown} + (set text | text in labels :: Known(Str(text)))
  }

  function SourceValues(source: Source, ctx: Context): set<Value> {
    match source
    case Plain(value) => {Known(value)}
    case Opaque => {Unknown}
    case Formula(_, labels) =>
      match Parsed(source)
      case Failure(_) => Unreadable(labels)
      case Success(e) => Values(e, ctx)
  }

  method Evaluate(source: Source, ctx: Context, errors: seq<string>) returns (values: set<Value>, after: seq<string>)
    ensures values == SourceValues(source, ctx)
    ensures errors <= after
    ensures source.Formula? && Parsed(source).Success? ==> after == errors + Errors(Parsed(source).value, ctx)
    ensures source.Formula? && Parsed(source).Failure? ==>
              |after| > |errors| && after[|after| - 1] == Parsed(source).error
    ensures !source.Formula? ==> after == errors
  {
    match source
    case Plain(value) => return {Known(value)}, errors;
    case Opaque => return {Unknown}, errors;
    case Formula(Failure(message), labels) =>
      return Unreadable(labels), errors + [message];
    case Formula(Success(ts), labels) =>
      var parser := new Expression(ts, ctx, errors);
      var result := parser.Parse(0);
      if result.Failure? {
        return Unreadable(labels), parser.errors + [result.error];
      }
      if parser.Peek() != None {
        return Unreadable(labels), parser.errors + [TRAILING];
      }
      return result.value, parser.errors;
  }

  /** A job is kept when it has no condition or its condition may hold. */
  predicate Runnable(condition: Option<Source>, ctx: Context) {
    condition.None? || exists a :: a in SourceValues(condition.value, ctx) && MayHold(a)
  }

  method DecideRunnable(condition: Option<Source>, ctx: Context) returns (keep: bool)
    ensures keep == Runnable(condition, ctx)
  {
    if condition.None? {
      return true;
    }
    var values, _ := Evaluate(condition.value, ctx, []);
    return exists a :: a in values && MayHold(a);
  }

  /** What GitHub computes for a condition it accepts. */
  function ActualSource(source: Source, w: World): Option<Scalar> {
    match source
    case Plain(value) => Some(value)
    case Opaque => None
    case Formula(_, _) =>
      match Parsed(source)
      case Failure(_) => None
      case Success(e) => Actual(e, w)
  }

  ghost predicate FaithfulSource(source: Source, ctx: Context, w: World) {
    source.Formula? && Parsed(source).Success? ==> Faithful(Parsed(source).value, ctx, w)
  }

  /** The condition could be true in this run: it holds, or nobody here can tell what it says. */
  predicate CouldHold(source: Source, w: World) {
    || source.Opaque?
    || (source.Formula? && Parsed(source).Failure?)
    || (ActualSource(source, w).Some? && Truthy(ActualSource(source, w).value))
  }

  /** No job whose condition could be true in some allowed run is dropped. */
  lemma RunnableKeeps(condition: Source, ctx: Context, w: World)
    requires FaithfulSource(condition, ctx, w) && Allows(ctx, w) && CouldHold(condition, w)
    ensures Runnable(Some(condition), ctx)
  {
    match condition
    case Plain(value) =>
      assert MayHold(Known(value));
    case Opaque =>
      assert MayHold(Unknown);
    case Formula(_, labels) =>
      if Parsed(condition).Success? {
        Sound(Parsed(condition).value, ctx, w);
        var a := Witness(SourceValues(condition, ctx), ActualSource(condition, w).value);
        assert MayHold(a);
      } else {
        assert Unknown in SourceValues(condition, ctx) && MayHold(Unknown);
      }
  }

  // ---- a payload that is there -----------------------------------------------------------

  function Written(e: Expr): Source {
    Formula(Success(Print(Parenthesize(e, 0))), {})
  }

  lemma PayloadIsName(text: string, k: nat)
    requires k < |PAYLOADS| && PAYLOADS[k].stem <= text
    ensures Constant(Word(text)) == None
  {
    assert text[0] == PAYLOADS[k].stem[0] == 'g' && "true"[0] == 't' && "false"[0] == 'f' && "null"[0] == 'n';
    assert DigitRun(text) == 0;
    assert NumberText(text, true) == None;
  }

  /** `if: github.event.…` under an event that carries this payload and is not listed for it: the job is dropped in
      every run for which the value is truthy. */
  lemma PayloadDrops(text: string, k: nat, event: string, ctx: Context, w: World)
    requires k < |PAYLOADS| && PAYLOADS[k].stem <= text && event !in PAYLOADS[k].events
    requires Events(ctx) == {Known(Str(event))} && text !in ctx.vars && Truthy(w.vars(text))
    ensures CouldHold(Written(Leaf(Word(text))), w)
    ensures SourceValues(Written(Leaf(Word(text))), ctx) == {Known(Null)}
    ensures !Runnable(Some(Written(Leaf(Word(text)))), ctx)
  {
    PayloadIsName(text, k);
    PrintedRunsBack(Leaf(Word(text)), {}, ctx, w);
    PayloadIsNull(text, k, event, ctx);
    assert Actual(Leaf(Word(text)), w) == Some(w.vars(text));
  }

  lemma PayloadIsNull(text: string, k: nat, event: string, ctx: Context)
    requires k < |PAYLOADS| && PAYLOADS[k].stem <= text && event !in PAYLOADS[k].events
    requires Events(ctx) == {Known(Str(event))} && text !in ctx.vars && Constant(Word(text)).None?
    ensures Values(Leaf(Word(text)), ctx) == {Known(Null)}
  {
    assert AbsentPayload(text, ctx);
    assert TokenText(Word(text)) == text;
  }

  const REVIEW := "pull_request_review"
  const DRAFT := "github.event.pull_request.draft"

  /** A review of a draft; review events have a pull request in their payload. */
  function ReviewOfDraft(some: World): World {
    some.(vars := name => if name == EVENT_NAME then Str(REVIEW) else if name == DRAFT then Bool(true) else Null,
          payloads := event => if event == REVIEW then {"github.event.pull_request."} else {})
  }

  function ReviewContext(some: World): Context {
    Context(map[EVENT_NAME := {Known(Str(REVIEW))}], some.number, some.decode)
  }

  /** One such input: a job with `if: github.event.pull_request.draft`, triggered by a review. */
  lemma ReviewDrops(some: World)
    ensures Allows(ReviewContext(some), ReviewOfDraft(some))
    ensures CouldHold(Written(Leaf(Word(DRAFT))), ReviewOfDraft(some))
    ensures !Runnable(Some(Written(Leaf(Word(DRAFT)))), ReviewContext(some))
  {
    var ctx, w := ReviewContext(some), ReviewOfDraft(some);
    assert DRAFT[..26] == PAYLOADS[0].stem;
    assert |REVIEW| == 19 && |"pull_request"| == 12 && |"pull_request_target"| == 19 && REVIEW[13] == 'r';
    assert "pull_request_target"[13] == 't';
    EventIsNoPayload(DRAFT);
    PayloadDrops(DRAFT, 0, REVIEW, ctx, w);
    forall k: nat, name | k < |PAYLOADS| && PAYLOADS[k].stem <= name
      ensures w.vars(name) == Null
        || exists event :: EventCarries(event, k, w.payloads) && w.vars(EVENT_NAME) == Str(event)
    {
      EventIsNoPayload(name);
      if name == DRAFT {
        StemsDiffer(DRAFT, k, 0);
        assert EventCarries(REVIEW, k, w.payloads);
      }
    }
  }

  // ---- trees, tokens and their value -----------------------------------------------------

  /** Added parentheses change neither meaning nor the errors reported. */
  lemma {:induction false} ParenthesizeKeeps(e: Expr, level: nat, ctx: Context, w: World)
    ensures Values(Parenthesize(e, level), ctx) == Values(e, ctx)
    ensures Actual(Parenthesize(e, level), w) == Actual(e, w)
    ensures Errors(Parenthesize(e, level), ctx) == Errors(e, ctx)
    decreases e, 1
  {
    InsideKeeps(e, ctx, w);
  }

  lemma {:induction false} InsideKeeps(e: Expr, ctx: Context, w: World)
    ensures Values(Inside(e), ctx) == Values(e, ctx)
    ensures Actual(Inside(e), w) == Actual(e, w)
    ensures Errors(Inside(e), ctx) == Errors(e, ctx)
    decreases e, 0
  {
    match e
    case Leaf(_) =>
    case Not(operand) => ParenthesizeKeeps(operand, ATOM, ctx, w);
    case Paren(inner) => ParenthesizeKeeps(inner, 0, ctx, w);
    case Call(name, args) =>
      var fitted := Inside(e).args;
      forall k | 0 <= k < |args|
        ensures Values(fitted[k], ctx) == Values(args[k], ctx)
        ensures Actual(fitted[k], w) == Actual(args[k], w) && Errors(fitted[k], ctx) == Errors(args[k], ctx)
      {
        ParenthesizeKeeps(args[k], 0, ctx, w);
      }
      SameActuals(fitted, args, w);
      SameErrors(fitted, args, ctx);
      SameValues(name, fitted, args, ctx);
    case Binary(op, left, right) =>
      ParenthesizeKeeps(left, Precedence(e), ctx, w);
      ParenthesizeKeeps(right, Precedence(e) + 1, ctx, w);
  }

  lemma SameValues(name: Token, a: seq<Expr>, b: seq<Expr>, ctx: Context)
    requires |a| == |b| && forall k :: 0 <= k < |a| ==> Values(a[k], ctx) == Values(b[k], ctx)
    ensures Values(Call(name, a), ctx) == Values(Call(name, b), ctx)
  {
    assert seq(|a|, k requires 0 <= k < |a| => Values(a[k], ctx)) ==
        seq(|b|, k requires 0 <= k < |b| => Values(b[k], ctx));
  }

  lemma {:induction false} SameActuals(a: seq<Expr>, b: seq<Expr>, w: World)
    requires |a| == |b| && forall k :: 0 <= k < |a| ==> Actual(a[k], w) == Actual(b[k], w)
    ensures ActualAll(a, w) == ActualAll(b, w)
  {
    if a != [] {
      SameActuals(a[1..], b[1..], w);
    }
  }

  lemma {:induction false} SameErrors(a: seq<Expr>, b: seq<Expr>, ctx: Context)
    requires |a| == |b| && forall k :: 0 <= k < |a| ==> Errors(a[k], ctx) == Errors(b[k], ctx)
    ensures AllErrors(a, ctx) == AllErrors(b, ctx)
  {
    if a != [] {
      SameErrors(a[..|a| - 1], b[..|a| - 1], ctx);
    }
  }

  /** Every sensible tree, printed with the parentheses it needs, runs back to its own evaluation: all
      tokens are consumed, and values and errors are those of the tree. */
  lemma PrintedRunsBack(e: Expr, labels: set<string>, ctx: Context, w: World)
    requires Sensible(e)
    ensures var source := Formula(Success(Print(Parenthesize(e, 0))), labels);
      && Parsed(source) == Success(Parenthesize(e, 0))
      && SourceValues(source, ctx) == Values(e, ctx) && Errors(Parsed(source).value, ctx) == Errors(e, ctx)
      && ActualSource(source, w) == Actual(e, w)
  {
    ParenthesizeReadable(e, 0);
    GrammarExact(Print(Parenthesize(e, 0)), Parenthesize(e, 0));
    ParenthesizeKeeps(e, 0, ctx, w);
  }
}
