/** The spend-safe selector grammar of the reusable workflows, and what it guarantees about the runner a
    selector can choose. */
module Spend {
  import opened Wrappers
  import opened Scalars
  import opened Syntax
  import opened Meaning

  const POOL := "sylphx-linux-"
  const VISIBILITY := Word("github.event.repository.visibility")

  predicate LabelChar(c: char) {
    'a' <= LowerChar(c) <= 'z' || Digit(c) || c == '-'
  }

  /** A label of the self-hosted pool, ignoring case. */
  predicate PoolLabel(s: string) {
    |s| > |POOL| && Lower(s[..|POOL|]) == POOL && forall k :: |POOL| <= k < |s| ==> LabelChar(s[k])
  }

  predicate PoolLiteral(token: Token) {
    token.Literal? && PoolLabel(token.body)
  }

  /** Letters, digits, underscores and hyphens. Outside ASCII a token holds letters and digits only, since the token
      pattern lets nothing else through. */
  predicate WordChar(c: char) {
    'a' <= LowerChar(c) <= 'z' || Digit(c) || c == '_' || c == '-' || c as int >= 128
  }

  predicate InputName(token: Token) {
    && token.Word? && "inputs." < token.text
    && forall k :: 7 <= k < |token.text| ==> WordChar(token.text[k])
  }

  function Nesting(token: Token): int {
    if token == Open then 1 else if token == Close then -1 else 0
  }

  /** The nesting depth after token `k`, counted from token 1 on. */
  function Depth(parts: seq<Token>, k: nat): int
    requires k < |parts|
  {
    if k == 0 then 0 else Depth(parts, k - 1) + Nesting(parts[k])
  }

  /** The parenthesis opened at index 1 closes at the last token, and not before. */
  predicate ClosesAtEnd(parts: seq<Token>) {
    |parts| > 1 && Depth(parts, |parts| - 1) == 0 && forall k :: 1 <= k < |parts| - 1 ==> Depth(parts, k) != 0
  }

  predicate FormatHead(parts: seq<Token>) {
    && |parts| >= 4 && parts[0] == Word("format") && parts[1] == Open
    && parts[2].Literal? && POOL <= parts[2].body && (parts[3] == Comma || parts[3] == Close)
  }

  function GuardedInput(input: Token, fallback: Token): seq<Token> {
    [Word("startsWith"), Open, input, Comma, Literal(POOL), Close, AndOp, input, OrOp, fallback]
  }

  predicate SelfHostedTokens(parts: seq<Token>) {
    if FormatHead(parts) then ClosesAtEnd(parts)
    else if |parts| == 1 then PoolLiteral(parts[0])
    else |parts| == 10 && InputName(parts[2]) && PoolLiteral(parts[9]) && parts == GuardedInput(parts[2], parts[9])
  }

  method SelfHostedExpression(parts: seq<Token>) returns (accepted: bool)
    ensures accepted == SelfHostedTokens(parts)
  {
    if FormatHead(parts) {
      accepted := CloseScan(parts);
    } else {
      accepted := SelfHostedTokens(parts);
    }
  }

  method CloseScan(parts: seq<Token>) returns (closed: bool)
    requires |parts| > 1
    ensures closed == ClosesAtEnd(parts)
  {
    var depth := 0;
    for index := 1 to |parts|
      invariant depth == Depth(parts, index - 1)
      invariant forall k :: 1 <= k < index ==> Depth(parts, k) != 0
    {
      depth := depth + Nesting(parts[index]);
      assert depth == Depth(parts, index);
      if depth == 0 {
        return index == |parts| - 1;
      }
    }
    return false;
  }

  const PUBLIC_ONLY := [VISIBILITY, EqOp, Literal("public"), AndOp]
  const HOSTED := [Literal("ubuntu-latest"), OrOp]

  function HostedChoice(input: Token): seq<Token> {
    [input, EqOp, Literal("ubuntu-latest"), AndOp]
  }

  /** A hosted branch behind an affirmative visibility check, with an optional input that asks for it. */
  predicate HostedTokens(parts: seq<Token>) {
    || (PUBLIC_ONLY + HOSTED <= parts && SelfHostedTokens(parts[6..]))
    || (|parts| >= 10 && InputName(parts[4]) && PUBLIC_ONLY + HostedChoice(parts[4]) + HOSTED <= parts
        && SelfHostedTokens(parts[10..]))
  }

  /** A `runs-on` value after decoding: a label, a list of labels (None for an item that is no text), the
      tokens of a `${{ }}` expression, or anything else. */
  datatype Selector =
    | Label(text: string)
    | Labels(items: seq<Option<string>>)
    | Choose(tokens: Result<seq<Token>, string>)
    | Other

  predicate Interpolated(s: string) {
    Passes(Contains, s, "${{")
  }

  predicate SafeSelector(selector: Selector) {
    match selector
    case Label(text) => PoolLabel(text)
    case Labels(items) =>
      Some("self-hosted") in items && forall item :: item in items ==> item.Some? && !Interpolated(item.value)
    case Choose(Failure(_)) => false
    case Choose(Success(ts)) => ParseAll(ts).Success? && (SelfHostedTokens(ts) || HostedTokens(ts))
    case Other => false
  }

  method CheckSelector(selector: Selector) returns (safe: bool)
    ensures safe == SafeSelector(selector)
  {
    if !selector.Choose? || selector.tokens.Failure? || ParseAll(selector.tokens.value).Failure? {
      return SafeSelector(selector);
    }
    var parts := selector.tokens.value;
    var alone := SelfHostedExpression(parts);
    if alone {
      return true;
    }
    if !(PUBLIC_ONLY <= parts) {
      return false;
    }
    ghost var all := parts;
    parts := parts[4..];
    if |parts| >= 4 && InputName(parts[0]) {
      if parts[..4] != HostedChoice(parts[0]) {
        return false;
      }
      parts := parts[4..];
    }
    if !(HOSTED <= parts) {
      return false;
    }
    safe := SelfHostedExpression(parts[2..]);
  }

  // ---- what an accepted selector can choose ----------------------------------------------

  /** A runner label that only the self-hosted pool serves. */
  predicate SelfHosted(v: Scalar) {
    v.Str? && |POOL| <= |v.s| && Lower(v.s[..|POOL|]) == POOL
  }

  /** The hosted runner, on a run whose repository is public. */
  predicate PublicHosted(v: Scalar, w: World) {
    v == Str("ubuntu-latest") && LooselyEqual(w.vars(VISIBILITY.text), Str("public"))
  }

  /** No number is written with a leading letter. */
  ghost predicate PlainNumbers(w: World) {
    forall n :: w.number(n) != "" ==> !('a' <= LowerChar(w.number(n)[0]) <= 'z')
  }

  lemma NameConstant(token: Token)
    requires token.Word? && token.text != "" && (token.text[0] == 'i' || token.text[0] == 'g')
    ensures Constant(token) == None
  {
    assert token.text[0] != "true"[0] && token.text[0] != "false"[0] && token.text[0] != "null"[0];
    assert DigitRun(token.text) == 0;
  }

  lemma {:induction false} UnquotePrefix(body: string, p: string)
    requires p <= body && '\'' !in p
    ensures p <= Unquote(body)
    decreases |p|
  {
    if p != "" {
      assert body[0] == p[0] && p[1..] <= body[1..];
      UnquotePrefix(body[1..], p[1..]);
      assert p == [p[0]] + p[1..];
    }
  }

  lemma {:induction false} UnquotePlain(body: string)
    requires '\'' !in body
    ensures Unquote(body) == body
  {
    if body != "" {
      UnquotePlain(body[1..]);
    }
  }

  lemma {:induction false} FormatPrefix(template: string, p: string, args: seq<string>)
    requires p <= template && '{' !in p && '}' !in p && Format(template, args).Some?
    ensures p <= Format(template, args).value
    decreases |p|
  {
    if p != "" {
      assert template[0] == p[0] && p[1..] <= template[1..];
      FormatPrefix(template[1..], p[1..], args);
      assert p == [p[0]] + p[1..];
    }
  }

  lemma LowerPrefix(p: string, s: string)
    requires Lower(p) <= Lower(s)
    ensures |p| <= |s| && Lower(s[..|p|]) == Lower(p)
  {
    assert |Lower(p)| == |p| && |Lower(s)| == |s|;
    forall k | 0 <= k < |p| ensures LowerChar(s[k]) == LowerChar(p[k]) {
      assert Lower(s)[k] == Lower(p)[k];
    }
    assert Lower(s[..|p|]) == Lower(p);
  }

  lemma PoolIsLower()
    ensures Lower(POOL) == POOL
  {
  }

  /** A pool literal is a self-hosted choice. */
  lemma PoolLiteralChoice(token: Token)
    requires PoolLiteral(token)
    ensures Constant(token) == Some(Str(token.body)) && SelfHosted(Str(token.body))
  {
    forall c | c in token.body ensures c != '\'' {
      var k :| 0 <= k < |token.body| && token.body[k] == c;
      if k < |POOL| {
        assert LowerChar(c) == Lower(token.body[..|POOL|])[k] == POOL[k];
      } else {
        assert LabelChar(token.body[k]);
      }
    }
    UnquotePlain(token.body);
  }

  /** `startsWith(input, 'sylphx-linux-') && input`: when it is truthy it is a self-hosted label. */
  function GuardTree(input: Token): Expr {
    Binary(AndOp, Call(Word("startsWith"), [Leaf(input), Leaf(Literal(POOL))]), Leaf(input))
  }

  lemma GuardChoice(input: Token, w: World)
    requires InputName(input) && PlainNumbers(w)
    ensures var r := Actual(GuardTree(input), w);
      r.Some? && (Truthy(r.value) ==> SelfHosted(r.value))
  {
    NameLeaf(input, w);
    GuardCall(input, w);
    if Lower(POOL) <= Lower(Text(w.vars(input.text), w.number)) {
      PoolText(w.vars(input.text), w);
    }
    ActualAnd(Call(Word("startsWith"), [Leaf(input), Leaf(Literal(POOL))]), Leaf(input), w);
  }

  lemma ActualAnd(a: Expr, b: Expr, w: World)
    requires Actual(a, w).Some? && Actual(b, w).Some?
    ensures Actual(Binary(AndOp, a, b), w) == if Truthy(Actual(a, w).value) then Actual(b, w) else Actual(a, w)
  {
  }

  lemma PoolText(v: Scalar, w: World)
    requires PlainNumbers(w) && Lower(POOL) <= Lower(Text(v, w.number))
    ensures SelfHosted(v)
  {
    LowerPrefix(POOL, Text(v, w.number));
    PoolIsLower();
    assert Lower(Text(v, w.number)[..|POOL|])[0] == 's';
    assert v.Str?;
  }

  lemma GuardCall(input: Token, w: World)
    requires InputName(input)
    ensures Actual(Call(Word("startsWith"), [Leaf(input), Leaf(Literal(POOL))]), w)
         == Some(Bool(Lower(POOL) <= Lower(Text(w.vars(input.text), w.number))))
  {
    NameLeaf(input, w);
    LiteralLeaf(POOL, w);
    ActualPair(Word("startsWith"), Leaf(input), Leaf(Literal(POOL)), w);
    StartsWithCall(w.vars(input.text), POOL, w);
  }

  lemma NameLeaf(token: Token, w: World)
    requires token.Word? && token.text != "" && (token.text[0] == 'i' || token.text[0] == 'g')
    ensures Actual(Leaf(token), w) == Some(w.vars(token.text))
  {
    NameConstant(token);
  }

  lemma LiteralLeaf(body: string, w: World)
    requires '\'' !in body
    ensures Actual(Leaf(Literal(body)), w) == Some(Str(body))
  {
    UnquotePlain(body);
  }

  lemma StartsWithCall(v: Scalar, p: string, w: World)
    ensures ActualCall("startsWith", [v, Str(p)], w) == Some(Bool(Lower(p) <= Lower(Text(v, w.number))))
  {
    var name, vs := "startsWith", [v, Str(p)];
    assert name[0] != "always"[0] && name[0] != "format"[0] && name[0] != "contains"[0];
    assert TestNamed(name) == Some(StartsWith);
    assert name[0] != "fromJSON"[0];
    assert Text(vs[1], w.number) == p;
    assert ActualCall(name, vs, w) ==
        Some(Bool(Passes(StartsWith, Lower(Text(vs[0], w.number)), Lower(Text(vs[1], w.number)))));
  }

  // ---- the trees of accepted selectors ---------------------------------------------------

  /** `format('sylphx-linux-…', …)`. */
  predicate FormatTree(e: Expr) {
    && e.Call? && e.name == Word("format") && e.args != []
    && e.args[0].Leaf? && e.args[0].token.Literal? && POOL <= e.args[0].token.body
  }

  predicate PoolTree(e: Expr) {
    (e.Leaf? && PoolLiteral(e.token)) || FormatTree(e)
  }

  function VisibleTree(): Expr {
    Binary(EqOp, Leaf(VISIBILITY), Leaf(Literal("public")))
  }

  /** The hosted branch: `visibility == 'public' && [input == 'ubuntu-latest' &&] 'ubuntu-latest'`. */
  function HostedTree(input: Option<Token>): Expr {
    var asked := match input
      case None => VisibleTree()
      case Some(i) => Binary(AndOp, VisibleTree(), Binary(EqOp, Leaf(i), Leaf(Literal("ubuntu-latest"))));
    Binary(AndOp, asked, Leaf(Literal("ubuntu-latest")))
  }

  /** An alternative that is either falsy or a permitted choice. */
  datatype Alternative = Hosted(asked: Option<Token>) | Guarded(input: Token)

  predicate Permitted(alternative: Alternative) {
    match alternative
    case Hosted(None) => true
    case Hosted(Some(i)) => InputName(i)
    case Guarded(i) => InputName(i)
  }

  function AlternativeTree(alternative: Alternative): Expr {
    match alternative
    case Hosted(asked) => HostedTree(asked)
    case Guarded(input) => GuardTree(input)
  }

  /** `first || second || … || last`, left associative. */
  function Alternatives(some: seq<Alternative>, last: Expr): Expr {
    if some == [] then last else Binary(OrOp, Joined(some), last)
  }

  function Joined(some: seq<Alternative>): Expr
    requires some != []
  {
    if |some| == 1 then AlternativeTree(some[0])
    else Binary(OrOp, Joined(some[..|some| - 1]), AlternativeTree(some[|some| - 1]))
  }

  predicate Good(v: Scalar, w: World) {
    SelfHosted(v) || PublicHosted(v, w)
  }

  lemma OrValue(a: Expr, b: Expr, w: World)
    ensures var r, x := Actual(Binary(OrOp, a, b), w), Actual(a, w);
      r == if x.None? || Truthy(x.value) then x else Actual(b, w)
  {
  }

  lemma HostedGood(asked: Option<Token>, w: World)
    requires Permitted(Hosted(asked))
    ensures var r := Actual(HostedTree(asked), w); r.Some? && (Truthy(r.value) ==> PublicHosted(r.value, w))
  {
    VisibleValue(w);
    LiteralLeaf("ubuntu-latest", w);
    if asked.Some? {
      NameLeaf(asked.value, w);
      var asks := Binary(EqOp, Leaf(asked.value), Leaf(Literal("ubuntu-latest")));
      EqualityValue(Leaf(asked.value), Leaf(Literal("ubuntu-latest")), w.vars(asked.value.text),
          Str("ubuntu-latest"), w);
      ActualAnd(VisibleTree(), asks, w);
      ActualAnd(Binary(AndOp, VisibleTree(), asks), Leaf(Literal("ubuntu-latest")), w);
    } else {
      ActualAnd(VisibleTree(), Leaf(Literal("ubuntu-latest")), w);
    }
  }

  lemma EqualityValue(a: Expr, b: Expr, x: Scalar, y: Scalar, w: World)
    requires Actual(a, w) == Some(x) && Actual(b, w) == Some(y)
    ensures Actual(Binary(EqOp, a, b), w) == Some(Bool(LooselyEqual(x, y)))
  {
    EqualityOf(Binary(EqOp, a, b), x, y, w);
  }

  lemma EqualityOf(e: Expr, x: Scalar, y: Scalar, w: World)
    requires e.Binary? && e.op == EqOp && Actual(e.left, w) == Some(x) && Actual(e.right, w) == Some(y)
    ensures Actual(e, w) == Some(Bool(LooselyEqual(x, y)))
  {
    var op, equal := e.op, LooselyEqual(x, y);
    assert op != AndOp && op != NeOp;
  }

  lemma VisibleValue(w: World)
    ensures Actual(VisibleTree(), w) == Some(Bool(LooselyEqual(w.vars(VISIBILITY.text), Str("public"))))
  {
    NameLeaf(VISIBILITY, w);
    LiteralLeaf("public", w);
    EqualityValue(Leaf(VISIBILITY), Leaf(Literal("public")), w.vars(VISIBILITY.text), Str("public"), w);
  }

  lemma {:induction false} JoinedGood(some: seq<Alternative>, w: World)
    requires some != [] && PlainNumbers(w) && forall k :: 0 <= k < |some| ==> Permitted(some[k])
    ensures var r := Actual(Joined(some), w); r.Some? && (Truthy(r.value) ==> Good(r.value, w))
  {
    var last := some[|some| - 1];
    match last {
      case Hosted(asked) => HostedGood(asked, w);
      case Guarded(input) => GuardChoice(input, w);
    }
    if |some| > 1 {
      JoinedGood(some[..|some| - 1], w);
      OrValue(Joined(some[..|some| - 1]), AlternativeTree(last), w);
    }
  }

  lemma PoolIsPlain()
    ensures forall k :: 0 <= k < |POOL| ==> POOL[k] != '\'' && POOL[k] != '{' && POOL[k] != '}'
  {
  }

  lemma FormatGood(e: Expr, w: World)
    requires FormatTree(e) && Actual(e, w).Some?
    ensures SelfHosted(Actual(e, w).value)
  {
    var body := e.args[0].token.body;
    PoolIsPlain();
    UnquotePrefix(body, POOL);
    var vs := ActualAll(e.args, w).value;
    assert Actual(e.args[0], w) == Some(Str(Unquote(body)));
    FormatCall(vs, w);
    FormatPrefix(Unquote(body), POOL, Texts(vs[1..], w.number));
    PoolIsLower();
    assert Actual(e, w).value.s[..|POOL|] == POOL;
  }

  lemma FormatCall(vs: seq<Scalar>, w: World)
    requires vs != [] && vs[0].Str?
    ensures ActualCall("format", vs, w) ==
      match Format(vs[0].s, Texts(vs[1..], w.number))
      case None => None
      case Some(s) => Some(Str(s))
  {
    assert "format"[0] != "always"[0];
  }

  /** Whatever the visibility and the inputs, such a tree chooses a self-hosted label, or the hosted runner
      on a public repository. */
  lemma AlternativesGood(some: seq<Alternative>, last: Expr, w: World)
    requires PlainNumbers(w) && PoolTree(last) && forall k :: 0 <= k < |some| ==> Permitted(some[k])
    requires Actual(Alternatives(some, last), w).Some?
    ensures Good(Actual(Alternatives(some, last), w).value, w)
  {
    if Actual(last, w).Some? {
      if last.Leaf? {
        PoolLiteralChoice(last.token);
      } else {
        FormatGood(last, w);
      }
    }
    if some != [] {
      JoinedGood(some, w);
      OrValue(Joined(some), last, w);
    }
  }

  // ---- from accepted tokens to their tree ------------------------------------------------

  lemma PrintPair(name: Token, a: Token, b: Token)
    ensures Print(Call(name, [Leaf(a), Leaf(b)])) == [name, Open, a, Comma, b, Close]
  {
    var args := [Leaf(a), Leaf(b)];
    assert args[1..] == [Leaf(b)] && [Leaf(b)][1..] == [];
    assert PrintMore([Leaf(b)]) == [Comma, b];
    assert PrintArguments(args) == [a, Comma, b];
  }

  lemma PrintGuard(input: Token)
    requires InputName(input)
    ensures Readable(GuardTree(input), 1)
    ensures Print(GuardTree(input)) == [Word("startsWith"), Open, input, Comma, Literal(POOL), Close, AndOp, input]
  {
    var call := Call(Word("startsWith"), [Leaf(input), Leaf(Literal(POOL))]);
    PrintPair(Word("startsWith"), input, Literal(POOL));
    assert Readable(call, ATOM);
    Looser(call, ATOM, 1);
    assert Print(GuardTree(input)) == Print(call) + [AndOp] + [input];
  }

  lemma PrintComparison(a: Token, b: Token)
    requires a.Word? && b.Literal?
    ensures Readable(Binary(EqOp, Leaf(a), Leaf(b)), 2) && Print(Binary(EqOp, Leaf(a), Leaf(b))) == [a, EqOp, b]
  {
  }

  lemma PrintAnd(a: Expr, b: Expr)
    requires Readable(a, 1) && Readable(b, 2)
    ensures Readable(Binary(AndOp, a, b), 1) && Print(Binary(AndOp, a, b)) == Print(a) + [AndOp] + Print(b)
  {
  }

  lemma PrintHosted(asked: Option<Token>)
    requires Permitted(Hosted(asked))
    ensures Readable(HostedTree(asked), 1)
    ensures Print(HostedTree(asked)) + [OrOp]
         == PUBLIC_ONLY + (if asked.Some? then HostedChoice(asked.value) else []) + HOSTED
  {
    var ubuntu := Literal("ubuntu-latest");
    PrintComparison(VISIBILITY, Literal("public"));
    Looser(VisibleTree(), 2, 1);
    assert Readable(Leaf(ubuntu), 2) && Print(Leaf(ubuntu)) == [ubuntu];
    if asked.Some? {
      var asks := Binary(EqOp, Leaf(asked.value), Leaf(ubuntu));
      PrintComparison(asked.value, ubuntu);
      PrintAnd(VisibleTree(), asks);
      PrintAnd(Binary(AndOp, VisibleTree(), asks), Leaf(ubuntu));
    } else {
      PrintAnd(VisibleTree(), Leaf(ubuntu));
    }
  }

  lemma PrintOr(a: Expr, b: Expr)
    requires Readable(a, 0) && Readable(b, 1)
    ensures Readable(Binary(OrOp, a, b), 0) && Print(Binary(OrOp, a, b)) == Print(a) + [OrOp] + Print(b)
  {
  }

  /** The tokens before the tail of a selector: nothing, or a hosted branch and its `||`. */
  function HeadTokens(head: seq<Alternative>): seq<Token>
    requires |head| <= 1
  {
    if head == [] then [] else Print(AlternativeTree(head[0])) + [OrOp]
  }

  lemma TailLiteral(ts: seq<Token>, head: seq<Alternative>, token: Token)
    requires |head| <= 1 && (head != [] ==> head[0].Hosted? && Permitted(head[0]))
    requires token.Literal? && ts == HeadTokens(head) + [token]
    ensures ParseAll(ts) == Success(Alternatives(head, Leaf(token)))
  {
    if head != [] {
      PrintHosted(head[0].asked);
      Looser(AlternativeTree(head[0]), 1, 0);
      PrintOr(AlternativeTree(head[0]), Leaf(token));
    }
    GrammarExact(ts, Alternatives(head, Leaf(token)));
  }

  lemma TailGuarded(ts: seq<Token>, head: seq<Alternative>, input: Token, token: Token)
    requires |head| <= 1 && (head != [] ==> head[0].Hosted? && Permitted(head[0]))
    requires token.Literal? && InputName(input) && ts == HeadTokens(head) + GuardedInput(input, token)
    ensures ParseAll(ts) == Success(Alternatives(head + [Guarded(input)], Leaf(token)))
  {
    var some := head + [Guarded(input)];
    if head == [] {
      assert some == [Guarded(input)];
      GuardAlone(input);
    } else {
      TwoGuarded(head[0], input);
      assert head == [head[0]] && some == [head[0], Guarded(input)];
    }
    PrintOr(Joined(some), Leaf(token));
    GuardedTokens(ts, head, input, token);
    GrammarExact(ts, Alternatives(some, Leaf(token)));
  }

  lemma GuardAlone(input: Token)
    requires InputName(input)
    ensures var e := Joined([Guarded(input)]); Readable(e, 0) && Print(e) == Print(GuardTree(input))
  {
    PrintGuard(input);
    Looser(GuardTree(input), 1, 0);
  }

  /** The tokens of the tail, cut where the trees meet. */
  lemma GuardedTokens(ts: seq<Token>, head: seq<Alternative>, input: Token, token: Token)
    requires |head| <= 1 && InputName(input) && ts == HeadTokens(head) + GuardedInput(input, token)
    ensures ts == HeadTokens(head) + Print(GuardTree(input)) + [OrOp] + [token]
  {
    PrintGuard(input);
    assert GuardedInput(input, token) == Print(GuardTree(input)) + [OrOp] + [token];
  }

  /** A hosted alternative and then a guarded one. */
  lemma TwoGuarded(first: Alternative, input: Token)
    requires first.Hosted? && Permitted(first) && InputName(input)
    ensures var e := Joined([first, Guarded(input)]);
      Readable(e, 0) && Print(e) == Print(AlternativeTree(first)) + [OrOp] + Print(GuardTree(input))
  {
    PrintGuard(input);
    PrintHosted(first.asked);
    Looser(AlternativeTree(first), 1, 0);
    assert [first, Guarded(input)][..1] == [first] && Joined([first]) == AlternativeTree(first);
    PrintOr(AlternativeTree(first), GuardTree(input));
  }

  // ---- a format call that closes at the end is the whole tail ----------------------------

  function Balance(p: seq<Token>): int {
    if p == [] then 0 else Balance(p[..|p| - 1]) + Nesting(p[|p| - 1])
  }

  lemma {:induction false} BalanceConcat(p: seq<Token>, q: seq<Token>)
    ensures Balance(p + q) == Balance(p) + Balance(q)
  {
    if q == [] {
      assert p + q == p;
    } else {
      BalanceConcat(p, q[..|q| - 1]);
      assert (p + q)[..|p + q| - 1] == p + q[..|q| - 1];
    }
  }

  lemma BalanceOne(token: Token)
    ensures Balance([token]) == Nesting(token)
  {
    assert [token][..0] == [];
  }

  /** A printed tree never leaves a parenthesis open. */
  lemma {:induction false} PrintBalance(e: Expr, level: nat)
    requires Readable(e, level)
    ensures Balance(Print(e)) <= 0
    decreases e, 0
  {
    match e
    case Leaf(token) => BalanceOne(token);
    case Not(operand) =>
      PrintBalance(operand, ATOM);
      BalanceConcat([Bang], Print(operand));
      BalanceOne(Bang);
    case Paren(inner) =>
      PrintBalance(inner, 0);
      BalanceConcat([Open] + Print(inner), [Close]);
      BalanceConcat([Open], Print(inner));
      BalanceOne(Open);
      BalanceOne(Close);
    case Call(name, args) => CallBalance(name, args);
    case Binary(op, left, right) =>
      PrintBalance(left, Precedence(e));
      PrintBalance(right, Precedence(e) + 1);
      BalanceConcat(Print(left) + [op], Print(right));
      BalanceConcat(Print(left), [op]);
      BalanceOne(op);
  }

  lemma {:induction false} CallBalance(name: Token, args: seq<Expr>)
    requires Readable(Call(name, args), ATOM)
    ensures Balance(Print(Call(name, args))) <= Nesting(name)
    decreases args, 1
  {
    var inside := PrintArguments(args);
    if args != [] {
      PrintBalance(args[0], 0);
      MoreBalance(args[1..]);
      BalanceConcat(Print(args[0]), PrintMore(args[1..]));
    }
    BalanceConcat([name, Open] + inside, [Close]);
    BalanceConcat([name, Open], inside);
    BalanceConcat([name], [Open]);
    BalanceOne(name);
    BalanceOne(Open);
    BalanceOne(Close);
  }

  lemma {:induction false} MoreBalance(args: seq<Expr>)
    requires forall k :: 0 <= k < |args| ==> Readable(args[k], 0)
    ensures Balance(PrintMore(args)) <= 0
    decreases args, 0
  {
    if args != [] {
      PrintBalance(args[0], 0);
      MoreBalance(args[1..]);
      BalanceConcat([Comma] + Print(args[0]), PrintMore(args[1..]));
      BalanceConcat([Comma], Print(args[0]));
      BalanceOne(Comma);
    }
  }

  lemma {:induction false} DepthIsBalance(parts: seq<Token>, k: nat)
    requires k < |parts|
    ensures Depth(parts, k) == Balance(parts[1..k + 1])
  {
    if k > 0 {
      DepthIsBalance(parts, k - 1);
      assert parts[1..k + 1][..k - 1] == parts[1..k];
    }
  }

  /** Depth moves by single steps, so it cannot pass from above to below zero unseen. */
  lemma {:induction false} DepthReachesZero(parts: seq<Token>, k: nat)
    requires 1 <= k < |parts| && parts[1] == Open && Depth(parts, k) <= 0
    ensures exists j :: 1 <= j <= k && Depth(parts, j) == 0
  {
    if Depth(parts, k) < 0 {
      assert Depth(parts, 0) == 0 && Depth(parts, 1) == 1;
      assert k > 1;
      DepthReachesZero(parts, k - 1);
    }
  }

  lemma {:induction false} AtomFirst(ts: seq<Token>, i: nat, level: nat)
    requires i <= |ts| && level <= ATOM && ParseLevel(ts, i, level).Success?
    ensures ParseAtom(ts, i).Success?
    ensures ParseAtom(ts, i).value.1 == |ts| ==> ParseLevel(ts, i, level) == ParseAtom(ts, i)
    decreases ATOM - level
  {
    if level < ATOM {
      AtomFirst(ts, i, level + 1);
    }
  }

  lemma FormatAtom(ts: seq<Token>, n: nat)
    requires n <= |ts| && FormatHead(ts[n..]) && ParseAtom(ts, n).Success?
    ensures FormatTree(ParseAtom(ts, n).value.0)
  {
    var parts := ts[n..];
    assert ts[n] == parts[0] && ts[n + 1] == parts[1] && ts[n + 2] == parts[2] && ts[n + 3] == parts[3];
    SpansOne(ts, n + 2, n + 3, ts[n + 2]);
    ReadBack(ts, n + 2, n + 3, 0, Leaf(ts[n + 2]));
    ParsedMore(ts, n + 3, [Leaf(ts[n + 2])]);
    assert ParseArguments(ts, n + 2) == ParseMoreArguments(ts, n + 3, [Leaf(ts[n + 2])]);
  }

  lemma FromFirst(ts: seq<Token>, n: nat, m: nat)
    requires n < m <= |ts|
    ensures ts[n..m] == [ts[n..][0]] + ts[n..][1..m - n]
  {
  }

  lemma FormatClosesAtEnd(ts: seq<Token>, n: nat)
    requires n <= |ts| && FormatHead(ts[n..]) && ClosesAtEnd(ts[n..]) && ParseAtom(ts, n).Success?
    ensures ParseAtom(ts, n).value.1 == |ts|
  {
    var parts := ts[n..];
    FormatAtom(ts, n);
    ParsedAtom(ts, n);
    var (e, m) := ParseAtom(ts, n).value;
    CallBalance(e.name, e.args);
    var k: nat := m - n - 1;
    FromFirst(ts, n, m);
    BalanceConcat([parts[0]], parts[1..k + 1]);
    BalanceOne(parts[0]);
    DepthIsBalance(parts, k);
    DepthReachesZero(parts, k);
  }

  lemma TailFormat(ts: seq<Token>, head: seq<Alternative>, n: nat)
    requires |head| <= 1 && (head != [] ==> head[0].Hosted? && Permitted(head[0]))
    requires n == |HeadTokens(head)| <= |ts| && ts[..n] == HeadTokens(head)
    requires FormatHead(ts[n..]) && ClosesAtEnd(ts[n..]) && ParseAll(ts).Success?
    ensures exists last :: FormatTree(last) && ParseAll(ts) == Success(Alternatives(head, last))
  {
    var level := if head == [] then 0 else 1;
    if head != [] {
      HeadParses(ts, head[0], n);
    }
    assert ParseLevel(ts, n, level).Success?;
    AtomFirst(ts, n, level);
    FormatAtom(ts, n);
    FormatClosesAtEnd(ts, n);
    var last := ParseAtom(ts, n).value.0;
    assert ParseLevel(ts, n, level) == Success((last, |ts|));
    if head != [] {
      assert Joined(head) == AlternativeTree(head[0]);
    }
    assert ParseAll(ts) == Success(Alternatives(head, last));
  }

  /** After a hosted branch the parser stands at its `||`. */
  lemma HeadParses(ts: seq<Token>, first: Alternative, n: nat)
    requires first.Hosted? && Permitted(first) && n <= |ts| && ts[..n] == Print(AlternativeTree(first)) + [OrOp]
    ensures n > 0 && TokenAt(ts, n - 1, OrOp)
    ensures ParseLevel(ts, 0, 0) == ParseRest(ts, n - 1, 0, AlternativeTree(first))
  {
    var e := AlternativeTree(first);
    PrintHosted(first.asked);
    Looser(e, 1, 0);
    assert ts[0..n] == Print(e) + [OrOp];
    SpansLast(ts, 0, n, Print(e), OrOp);
    ReadBackSpine(ts, 0, n - 1, 0, e);
  }

  /** Every accepted token list reads as permitted alternatives before a pool choice. */
  lemma AcceptedTree(ts: seq<Token>) returns (some: seq<Alternative>, last: Expr)
    requires ParseAll(ts).Success? && (SelfHostedTokens(ts) || HostedTokens(ts))
    ensures PoolTree(last) && forall k :: 0 <= k < |some| ==> Permitted(some[k])
    ensures ParseAll(ts) == Success(Alternatives(some, last))
  {
    var head := AcceptedHead(ts);
    some, last := AcceptedTail(ts, head);
  }

  lemma AcceptedHead(ts: seq<Token>) returns (head: seq<Alternative>)
    requires SelfHostedTokens(ts) || HostedTokens(ts)
    ensures |head| <= 1 && (head != [] ==> head[0].Hosted? && Permitted(head[0]))
    ensures HeadTokens(head) <= ts && SelfHostedTokens(ts[|HeadTokens(head)|..])
  {
    head := [];
    if SelfHostedTokens(ts) {
      assert ts[0..] == ts;
    } else if PUBLIC_ONLY + HOSTED <= ts && SelfHostedTokens(ts[6..]) {
      head := [Hosted(None)];
      PrintHosted(None);
      assert HeadTokens(head) == PUBLIC_ONLY + HOSTED;
    } else {
      head := [Hosted(Some(ts[4]))];
      PrintHosted(Some(ts[4]));
      assert HeadTokens(head) == PUBLIC_ONLY + HostedChoice(ts[4]) + HOSTED;
    }
  }

  lemma AcceptedTail(ts: seq<Token>, head: seq<Alternative>) returns (some: seq<Alternative>, last: Expr)
    requires ParseAll(ts).Success?
    requires |head| <= 1 && (head != [] ==> head[0].Hosted? && Permitted(head[0]))
    requires HeadTokens(head) <= ts && SelfHostedTokens(ts[|HeadTokens(head)|..])
    ensures PoolTree(last) && forall k :: 0 <= k < |some| ==> Permitted(some[k])
    ensures ParseAll(ts) == Success(Alternatives(some, last))
  {
    var n := |HeadTokens(head)|;
    var tail := ts[n..];
    assert ts == HeadTokens(head) + tail;
    if FormatHead(tail) {
      TailFormat(ts, head, n);
      last :| FormatTree(last) && ParseAll(ts) == Success(Alternatives(head, last));
      some := head;
    } else if |tail| == 1 {
      assert tail == [tail[0]];
      TailLiteral(ts, head, tail[0]);
      some, last := head, Leaf(tail[0]);
    } else {
      some, last := GuardedTail(ts, head, tail);
    }
  }

  lemma GuardedTail(ts: seq<Token>, head: seq<Alternative>, tail: seq<Token>)
    returns (some: seq<Alternative>, last: Expr)
    requires |head| <= 1 && (head != [] ==> head[0].Hosted? && Permitted(head[0])) && ts == HeadTokens(head) + tail
    requires |tail| == 10 && InputName(tail[2]) && PoolLiteral(tail[9]) && tail == GuardedInput(tail[2], tail[9])
    ensures PoolTree(last) && forall k :: 0 <= k < |some| ==> Permitted(some[k])
    ensures ParseAll(ts) == Success(Alternatives(some, last))
  {
    TailGuarded(ts, head, tail[2], tail[9]);
    some, last := head + [Guarded(tail[2])], Leaf(tail[9]);
    PermittedMore(head, tail[2]);
  }

  lemma PermittedMore(head: seq<Alternative>, input: Token)
    requires InputName(input) && forall k :: 0 <= k < |head| ==> Permitted(head[k])
    ensures forall k :: 0 <= k <= |head| ==> Permitted((head + [Guarded(input)])[k])
  {
  }

  /** The runner an accepted expression selects. */
  lemma AcceptedExpressionGood(ts: seq<Token>, w: World)
    requires SafeSelector(Choose(Success(ts))) && PlainNumbers(w) && Actual(ParseAll(ts).value, w).Some?
    ensures Good(Actual(ParseAll(ts).value, w).value, w)
  {
    var some, last := AcceptedTree(ts);
    AlternativesGood(some, last, w);
  }

  /** What a `runs-on` value asks for in a run: labels a runner must all carry, or an error. */
  function Requested(selector: Selector, w: World): Option<seq<Scalar>> {
    match selector
    case Label(text) => Some([Str(text)])
    case Labels(items) =>
      Some(seq(|items|, k requires 0 <= k < |items| => if items[k].Some? then Str(items[k].value) else Null))
    case Choose(Failure(_)) => None
    case Choose(Success(ts)) =>
      if ParseAll(ts).Failure? || Actual(ParseAll(ts).value, w).None? then None
      else Some([Actual(ParseAll(ts).value, w).value])
    case Other => None
  }

  /** Every accepted selector asks, whatever the visibility and the inputs, for a label that only
      self-hosted runners carry, or for the hosted runner of a public repository. */
  lemma SafeSelectorSpends(selector: Selector, w: World)
    requires SafeSelector(selector) && PlainNumbers(w) && Requested(selector, w).Some?
    ensures var labels := Requested(selector, w).value;
      || (exists v :: v in labels && (SelfHosted(v) || v == Str("self-hosted")))
      || (|labels| == 1 && PublicHosted(labels[0], w))
  {
    var labels := Requested(selector, w).value;
    match selector
    case Label(text) =>
      assert Str(text) in labels;
    case Labels(items) =>
      var k :| 0 <= k < |items| && items[k] == Some("self-hosted");
      assert labels[k] == Str("self-hosted") && labels[k] in labels;
    case Choose(tokens) =>
      AcceptedExpressionGood(tokens.value, w);
      assert labels[0] in labels;
  }
}
