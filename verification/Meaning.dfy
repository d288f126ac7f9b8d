/** Two meanings of an expression tree: what GitHub computes from actual values, and what the merge-lane
    interpreter computes from sets of possible values. The second covers the first. */
module Meaning {
  import opened Wrappers
  import opened Scalars
  import opened Syntax

  function TokenText(token: Token): string {
    match token
    case Bang => "!"
    case Open => "("
    case Close => ")"
    case Comma => ","
    case OrOp => "||"
    case AndOp => "&&"
    case EqOp => "=="
    case NeOp => "!="
    case Literal(body) => "'" + body + "'"
    case Word(text) => text
  }

  /** The value of a quoted literal: doubled quotes stand for one. */
  function Unquote(body: string): string {
    if body == "" then ""
    else if |body| > 1 && body[0] == '\'' && body[1] == '\'' then "'" + Unquote(body[2..])
    else [body[0]] + Unquote(body[1..])
  }

  /** The value a token has wherever it stands, if it is a literal, a keyword or a number. */
  function Constant(token: Token): Option<Scalar> {
    if token.Literal? then Some(Str(Unquote(token.body)))
    else if TokenText(token) == "true" then Some(Bool(true))
    else if TokenText(token) == "false" then Some(Bool(false))
    else if TokenText(token) == "null" then Some(Null)
    else
      match NumberText(TokenText(token), true)
      case None => None
      case Some(n) => Some(Num(n))
  }

  function TestNamed(name: string): Option<Test> {
    if name == "contains" then Some(Contains)
    else if name == "startsWith" then Some(StartsWith)
    else if name == "endsWith" then Some(EndsWith)
    else None
  }

  // ---- what GitHub computes --------------------------------------------------------------

  /** One actual run: every context value, how numbers are written, how JSON text decodes to a scalar, the
      functions the interpreter does not know, and the payloads that each event carries, whichever event this run
      has. A result of None is an evaluation error. */
  datatype World = World(
    vars: string -> Scalar,
    number: real -> string,
    decode: string -> Option<Scalar>,
    other: (string, seq<Scalar>) -> Option<Scalar>,
    payloads: string -> set<string>)

  function Actual(e: Expr, w: World): Option<Scalar>
    decreases e, 0
  {
    match e
    case Leaf(token) =>
      (match Constant(token)
       case Some(v) => Some(v)
       case None => Some(w.vars(TokenText(token))))
    case Not(operand) =>
      (match Actual(operand, w)
       case None => None
       case Some(v) => Some(Bool(!Truthy(v))))
    case Paren(inner) => Actual(inner, w)
    case Call(name, args) =>
      (match ActualAll(args, w)
       case None => None
       case Some(vs) => ActualCall(TokenText(name), vs, w))
    case Binary(op, left, right) =>
      match Actual(left, w)
      case None => None
      case Some(a) =>
        if op == AndOp && !Truthy(a) then Some(a)
        else if op != AndOp && op != EqOp && op != NeOp && Truthy(a) then Some(a)
        else
          match Actual(right, w)
          case None => None
          case Some(b) =>
            if op == EqOp then Some(Bool(LooselyEqual(a, b)))
            else if op == NeOp then Some(Bool(!LooselyEqual(a, b)))
            else Some(b)
  }

  function ActualAll(args: seq<Expr>, w: World): (r: Option<seq<Scalar>>)
    ensures r.Some? ==> |r.value| == |args|
    ensures r.Some? ==> forall k :: 0 <= k < |args| ==> Actual(args[k], w) == Some(r.value[k])
    decreases args, 1
  {
    if args == [] then Some([])
    else
      match Actual(args[0], w)
      case None => None
      case Some(v) =>
        match ActualAll(args[1..], w)
        case None => None
        case Some(vs) => Some([v] + vs)
  }

  function Texts(vs: seq<Scalar>, number: real -> string): (r: seq<string>)
    ensures |r| == |vs| && (forall k :: 0 <= k < |vs| ==> r[k] == Text(vs[k], number))
  {
    seq(|vs|, k requires 0 <= k < |vs| => Text(vs[k], number))
  }

  function ActualCall(name: string, vs: seq<Scalar>, w: World): Option<Scalar> {
    if name == "always" && vs == [] then Some(Bool(true))
    else if name == "format" && vs != [] then
      match Format(Text(vs[0], w.number), Texts(vs[1..], w.number))
      case None => None
      case Some(s) => Some(Str(s))
    else if name == "fromJSON" && |vs| == 1 && vs[0].Str? && w.decode(vs[0].s).Some? then w.decode(vs[0].s)
    else if TestNamed(name).Some? && |vs| == 2 then
      Some(Bool(Passes(TestNamed(name).value, Lower(Text(vs[0], w.number)), Lower(Text(vs[1], w.number)))))
    else w.other(name, vs)
  }

  lemma ActualCons(a: Expr, rest: seq<Expr>, w: World)
    requires Actual(a, w).Some? && ActualAll(rest, w).Some?
    ensures ActualAll([a] + rest, w) == Some([Actual(a, w).value] + ActualAll(rest, w).value)
  {
    assert ([a] + rest)[0] == a && ([a] + rest)[1..] == rest;
  }

  lemma ActualPair(name: Token, a: Expr, b: Expr, w: World)
    requires Actual(a, w).Some? && Actual(b, w).Some?
    ensures Actual(Call(name, [a, b]), w) == ActualCall(TokenText(name), [Actual(a, w).value, Actual(b, w).value], w)
  {
    ActualBoth(a, b, w);
  }

  lemma ActualBoth(a: Expr, b: Expr, w: World)
    requires Actual(a, w).Some? && Actual(b, w).Some?
    ensures ActualAll([a, b], w) == Some([Actual(a, w).value, Actual(b, w).value])
  {
    var va, vb := Actual(a, w).value, Actual(b, w).value;
    assert ActualAll([], w) == Some([]);
    ActualCons(b, [], w);
    assert [b] + [] == [b] && [vb] + [] == [vb];
    ActualCons(a, [b], w);
    assert [a] + [b] == [a, b] && [va] + [vb] == [va, vb];
  }

  // ---- what the interpreter computes -----------------------------------------------------

  datatype Value = Known(v: Scalar) | Unknown

  /** What the interpreter is given: possible values of some contexts, Python's way to write numbers, and
      the JSON decoder. */
  datatype Context = Context(
    vars: map<string, set<Value>>,
    number: real -> string,
    decode: string -> Option<Scalar>)

  predicate MayHold(a: Value) {
    a.Unknown? || Truthy(a.v)
  }

  predicate MayFail(a: Value) {
    a.Unknown? || !Truthy(a.v)
  }

  function EqualValues(a: Value, b: Value): set<bool> {
    if a.Unknown? || b.Unknown? then {false, true} else {LooselyEqual(a.v, b.v)}
  }

  /** One pair of operands. An unknown falsy left side of `&&` is recorded as `false`. */
  function Combine(op: Token, a: Value, b: Value): set<Value> {
    if op == EqOp then set r | r in EqualValues(a, b) :: Known(Bool(r))
    else if op == NeOp then set r | r in EqualValues(a, b) :: Known(Bool(!r))
    else if op == AndOp then
      (if MayFail(a) then {if a.Unknown? then Known(Bool(false)) else a} else {}) + (if MayHold(a) then {b} else {})
    else
      (if MayHold(a) then {a} else {}) + (if MayFail(a) then {b} else {})
  }

  function CombineAll(op: Token, left: set<Value>, right: set<Value>): set<Value> {
    set a, b, r | a in left && b in right && r in Combine(op, a, b) :: r
  }

  function Negations(values: set<Value>): set<Value> {
    (if exists a :: a in values && MayFail(a) then {Known(Bool(true))} else {})
    + (if exists a :: a in values && MayHold(a) then {Known(Bool(false))} else {})
  }

  /** One value of each set. */
  predicate RowOf(row: seq<Value>, sets: seq<set<Value>>) {
    |row| == |sets| && forall k :: 0 <= k < |sets| ==> row[k] in sets[k]
  }

  lemma RowSplits(row: seq<Value>, sets: seq<set<Value>>)
    requires sets != [] && RowOf(row, sets)
    ensures row[0] in sets[0] && RowOf(row[1..], sets[1..]) && row == [row[0]] + row[1..]
  {
  }

  lemma RowJoins(first: Value, rest: seq<Value>, sets: seq<set<Value>>)
    requires sets != [] && first in sets[0] && RowOf(rest, sets[1..])
    ensures RowOf([first] + rest, sets)
  {
  }

  function Rows(sets: seq<set<Value>>): (rows: set<seq<Value>>)
    ensures forall row :: row in rows <==> RowOf(row, sets)
  {
    if sets == [] then
      assert forall row: seq<Value> :: |row| == 0 ==> row == [];
      {[]}
    else
      var tails := Rows(sets[1..]);
      var rows := set first, rest | first in sets[0] && rest in tails :: [first] + rest;
      assert forall row: seq<Value> :: row in rows <==> RowOf(row, sets) by {
        forall row: seq<Value> ensures row in rows <==> RowOf(row, sets) {
          if RowOf(row, sets) {
            RowSplits(row, sets);
          }
          if row in rows {
            var first, rest :| first in sets[0] && rest in tails && row == [first] + rest;
            RowJoins(first, rest, sets);
          }
        }
      }
      rows
  }

  function PythonTexts(row: seq<Value>, number: real -> string): (r: seq<string>)
    requires Unknown !in row
    ensures |r| == |row| && (forall k :: 0 <= k < |row| ==> r[k] == PythonText(row[k].v, number))
  {
    seq(|row|, k requires 0 <= k < |row| => PythonText(row[k].v, number))
  }

  function FormatRow(row: seq<Value>, ctx: Context): Value
    requires row != []
  {
    if Unknown in row || !row[0].v.Str? then Unknown
    else
      match Format(row[0].v.s, PythonTexts(row[1..], ctx.number))
      case None => Unknown
      case Some(s) => Known(Str(s))
  }

  function Decoded(a: Value, ctx: Context): Value {
    if a.Known? && a.v.Str? && ctx.decode(a.v.s).Some? then Known(ctx.decode(a.v.s).value) else Unknown
  }

  function TestValues(test: Test, a: Value, b: Value, ctx: Context): set<Value> {
    if a.Unknown? || b.Unknown? then {Known(Bool(true)), Known(Bool(false))}
    else {Known(Bool(Passes(test, Lower(Text(a.v, ctx.number)), Lower(Text(b.v, ctx.number)))))}
  }

  predicate Supported(name: string, count: nat) {
    || (name == "always" && count == 0) || (name == "format" && count > 0)
    || (name == "fromJSON" && count == 1) || (TestNamed(name).Some? && count == 2)
  }

  function CallValues(name: string, args: seq<set<Value>>, ctx: Context): set<Value> {
    if name == "always" && args == [] then {Known(Bool(true))}
    else if name == "format" && args != [] then set row | row in Rows(args) :: FormatRow(row, ctx)
    else if name == "fromJSON" && |args| == 1 then set a | a in args[0] :: Decoded(a, ctx)
    else if TestNamed(name).Some? && |args| == 2 then TestAll(TestNamed(name).value, args[0], args[1], ctx)
    else {Unknown}
  }

  function TestAll(test: Test, left: set<Value>, right: set<Value>, ctx: Context): set<Value> {
    set a, b, r | a in left && b in right && r in TestValues(test, a, b, ctx) :: r
  }

  datatype Payload = Payload(stem: string, events: set<string>)

  /** Payloads that the interpreter takes to be absent on other events than the listed ones. */
  const PAYLOADS := [
    Payload("github.event.pull_request.", {"pull_request", "pull_request_target"}),
    Payload("github.event.merge_group.", {"merge_group"}),
    Payload("github.event.workflow_run.", {"workflow_run"}),
    Payload("github.event.inputs.", {"workflow_dispatch"})]

  const EVENT_NAME := "github.event_name"

  function Events(ctx: Context): set<Value> {
    if EVENT_NAME in ctx.vars then ctx.vars[EVENT_NAME] else {}
  }

  /** No event of this context is listed for the payload this name belongs to. */
  predicate AbsentPayload(text: string, ctx: Context) {
    && Events(ctx) != {}
    && exists k :: 0 <= k < |PAYLOADS| && PAYLOADS[k].stem <= text
                   && forall name :: name in PAYLOADS[k].events ==> Known(Str(name)) !in Events(ctx)
  }

  function LeafValues(token: Token, ctx: Context): set<Value> {
    var text := TokenText(token);
    match Constant(token)
    case Some(v) => {Known(v)}
    case None =>
      if text in ctx.vars then ctx.vars[text] else if AbsentPayload(text, ctx) then {Known(Null)} else {Unknown}
  }

  function Values(e: Expr, ctx: Context): set<Value>
    decreases e
  {
    match e
    case Leaf(token) => LeafValues(token, ctx)
    case Not(operand) => Negations(Values(operand, ctx))
    case Paren(inner) => Values(inner, ctx)
    case Call(name, args) =>
      CallValues(TokenText(name), seq(|args|, k requires 0 <= k < |args| => Values(args[k], ctx)), ctx)
    case Binary(op, left, right) => CombineAll(op, Values(left, ctx), Values(right, ctx))
  }

  function AllValues(args: seq<Expr>, ctx: Context): (r: seq<set<Value>>)
    ensures |r| == |args| && (forall k :: 0 <= k < |args| ==> r[k] == Values(args[k], ctx))
  {
    seq(|args|, k requires 0 <= k < |args| => Values(args[k], ctx))
  }

  // ---- coverage --------------------------------------------------------------------------

  /** The value itself, or the unknown element, is among the possible values. */
  predicate Exact(values: set<Value>, v: Scalar) {
    Known(v) in values || Unknown in values
  }

  /** As `Exact`, or a falsy value for which `false` stands in. */
  predicate Covers(values: set<Value>, v: Scalar) {
    Exact(values, v) || (!Truthy(v) && Known(Bool(false)) in values)
  }

  /** The actual run agrees with the context, and has no payload that its event does not carry. */
  ghost predicate Allows(ctx: Context, w: World) {
    && ctx.decode == w.decode
    && (forall name :: name in ctx.vars ==> Exact(ctx.vars[name], w.vars(name)))
    && (forall k, name :: 0 <= k < |PAYLOADS| && PAYLOADS[k].stem <= name ==>
          || w.vars(name) == Null
          || exists event :: EventCarries(event, k, w.payloads) && w.vars(EVENT_NAME) == Str(event))
  }

  predicate EventCarries(event: string, k: nat, payloads: string -> set<string>)
    requires k < |PAYLOADS|
  {
    PAYLOADS[k].stem in payloads(event)
  }

  /** Some event that this context leaves open, named or unknown, carries the payload this name belongs to. */
  ghost predicate Carried(text: string, ctx: Context, payloads: string -> set<string>) {
    exists k, event :: 0 <= k < |PAYLOADS| && PAYLOADS[k].stem <= text && EventCarries(event, k, payloads)
                       && Exact(Events(ctx), Str(event))
  }

  /** The value of this token is not taken to be null where an event carries it. */
  ghost predicate FaithfulLeaf(token: Token, ctx: Context, payloads: string -> set<string>) {
    var text := TokenText(token);
    Constant(token).Some? || text in ctx.vars || !AbsentPayload(text, ctx) || !Carried(text, ctx, payloads)
  }

  /** No value of this tree is `false` standing in for another falsy value. */
  predicate NoStandIn(e: Expr, ctx: Context) {
    || Unknown in Values(e, ctx)
    || (match e
        case Leaf(_) => true
        case Not(_) => true
        case Paren(inner) => NoStandIn(inner, ctx)
        case Call(_, _) => true
        case Binary(op, left, right) =>
          || op == EqOp || op == NeOp
          || (NoStandIn(right, ctx) && (op != AndOp || (NoStandIn(left, ctx) && Unknown !in Values(left, ctx)))))
  }

  predicate NoZeroText(values: set<Value>) {
    forall a :: a in values && a.Known? ==> !ZeroText(a.v)
  }

  /** Python and GitHub write this number alike. */
  predicate AlikeNumber(v: Scalar, ctx: Context, w: World) {
    v.Num? ==> ctx.number(v.n) == w.number(v.n)
  }

  predicate AlikeNumbers(values: set<Value>, ctx: Context, w: World) {
    forall a :: a in values && a.Known? ==> AlikeNumber(a.v, ctx, w)
  }

  /** Python's formatting writes these values as GitHub does. */
  predicate AlikeTexts(values: set<Value>, ctx: Context, w: World) {
    forall a :: a in values && a.Known? ==> PythonText(a.v, ctx.number) == Text(a.v, w.number)
  }

  /** `false` on the left of a text test passes as every falsy value does, for each of these right sides. */
  predicate LeftStands(test: Test, right: set<Value>, w: World) {
    forall b :: b in right && b.Known? ==>
      StandsLeft(test, Lower(Text(b.v, w.number)), Lower(w.number(0.0)))
  }

  predicate RightStands(test: Test, left: set<Value>, w: World) {
    forall a :: a in left && a.Known? ==>
      StandsRight(test, Lower(Text(a.v, w.number)), Lower(w.number(0.0)))
  }

  /** A text test may see a stand-in only beside values for which it is exact, and numbers that both sides write
      alike. */
  predicate FaithfulTest(test: Test, a: Expr, b: Expr, ctx: Context, w: World) {
    && (NoStandIn(a, ctx) || LeftStands(test, Values(b, ctx), w))
    && (NoStandIn(b, ctx) || RightStands(test, Values(a, ctx), w))
    && AlikeNumbers(Values(a, ctx), ctx, w) && AlikeNumbers(Values(b, ctx), ctx, w)
  }

  /** The operands for which the interpreter is faithful: no payload is taken to be absent that an event carries,
      an equality may see a stand-in only beside values that are no zero text, a text test only where it is exact,
      and the numbers that a text test sees and the values that are formatted are written alike by both sides. */
  ghost predicate Faithful(e: Expr, ctx: Context, w: World)
  {
    match e
    case Leaf(token) => FaithfulLeaf(token, ctx, w.payloads)
    case Not(operand) => Faithful(operand, ctx, w)
    case Paren(inner) => Faithful(inner, ctx, w)
    case Call(name, args) =>
      && (forall k :: 0 <= k < |args| ==> Faithful(args[k], ctx, w))
      && (TestNamed(TokenText(name)).Some? && |args| == 2 ==>
            FaithfulTest(TestNamed(TokenText(name)).value, args[0], args[1], ctx, w))
      && (TokenText(name) == "format" ==> forall k :: 1 <= k < |args| ==> AlikeTexts(Values(args[k], ctx), ctx, w))
    case Binary(op, left, right) =>
      && Faithful(left, ctx, w) && Faithful(right, ctx, w)
      && (op == EqOp || op == NeOp ==>
            && (NoStandIn(left, ctx) || NoZeroText(Values(right, ctx)))
            && (NoStandIn(right, ctx) || NoZeroText(Values(left, ctx))))
  }

  /** Soundness: in every run the context allows, the actual result is covered by the possible values. */
  lemma {:induction false} Sound(e: Expr, ctx: Context, w: World)
    requires Faithful(e, ctx, w) && Allows(ctx, w) && Actual(e, w).Some?
    ensures Covers(Values(e, ctx), Actual(e, w).value)
    ensures NoStandIn(e, ctx) ==> Exact(Values(e, ctx), Actual(e, w).value)
    decreases e, 0
  {
    match e
    case Leaf(token) => LeafSound(token, ctx, w);
    case Not(operand) => Sound(operand, ctx, w);
    case Paren(inner) => Sound(inner, ctx, w);
    case Call(name, args) =>
      forall k | 0 <= k < |args|
        ensures Actual(args[k], w).Some?
        ensures Covers(Values(args[k], ctx), Actual(args[k], w).value)
        ensures NoStandIn(args[k], ctx) ==> Exact(Values(args[k], ctx), Actual(args[k], w).value)
      {
        assert Actual(args[k], w) == Some(ActualAll(args, w).value[k]);
        Sound(args[k], ctx, w);
      }
      CallSound(TokenText(name), args, ActualAll(args, w).value, ctx, w);
      assert AllValues(args, ctx) == seq(|args|, k requires 0 <= k < |args| => Values(args[k], ctx));
    case Binary(op, left, right) =>
      Sound(left, ctx, w);
      if Actual(right, w).Some? {
        Sound(right, ctx, w);
      }
      NonEmpty(right, ctx);
      var x := Actual(left, w).value;
      if op == EqOp || op == NeOp {
        EqualitySound(op, Values(left, ctx), Values(right, ctx), x, Actual(right, w).value);
      } else if op == AndOp {
        AndSound(Values(left, ctx), Values(right, ctx), x, Actual(e, w).value);
      } else {
        OrSound(op, Values(left, ctx), Values(right, ctx), x, Actual(e, w).value);
      }
  }

  lemma CombineMember(op: Token, left: set<Value>, right: set<Value>, a: Value, b: Value, r: Value)
    requires a in left && b in right && r in Combine(op, a, b)
    ensures r in CombineAll(op, left, right)
  {
  }

  /** The possible value that covers `x`: itself, the unknown element, or the stand-in. */
  ghost function Witness(values: set<Value>, x: Scalar): (a: Value)
    requires Covers(values, x)
    ensures a in values && (a == Known(x) || a == Unknown
      || (a == Known(Bool(false)) && !Truthy(x) && !Exact(values, x)))
  {
    if Known(x) in values then Known(x) else if Unknown in values then Unknown else Known(Bool(false))
  }

  lemma EqualitySound(op: Token, left: set<Value>, right: set<Value>, x: Scalar, y: Scalar)
    requires op == EqOp || op == NeOp
    requires Covers(left, x) && Covers(right, y)
    requires Exact(left, x) || NoZeroText(right)
    requires Exact(right, y) || NoZeroText(left)
    ensures Known(Bool(LooselyEqual(x, y) == (op == EqOp))) in CombineAll(op, left, right)
  {
    var a, b := Witness(left, x), Witness(right, y);
    var equal := LooselyEqual(x, y);
    assert equal in EqualValues(a, b) by {
      if a.Known? && b.Known? {
        StandInExact(y);
        StandInExact(a.v);
      }
    }
    CombineMember(op, left, right, a, b, Known(Bool(equal == (op == EqOp))));
  }

  lemma AndSound(left: set<Value>, right: set<Value>, x: Scalar, z: Scalar)
    requires Covers(left, x) && right != {}
    requires if Truthy(x) then Covers(right, z) else z == x
    ensures Covers(CombineAll(AndOp, left, right), z)
    ensures Unknown !in left && (Truthy(x) ==> Exact(right, z)) && Exact(left, x) ==>
              Exact(CombineAll(AndOp, left, right), z)
  {
    var a := Witness(left, x);
    var b :| b in right;
    if Truthy(x) {
      b := Witness(right, z);
      CombineMember(AndOp, left, right, a, b, b);
    } else {
      CombineMember(AndOp, left, right, a, b, if a.Unknown? then Known(Bool(false)) else a);
    }
  }

  lemma OrSound(op: Token, left: set<Value>, right: set<Value>, x: Scalar, z: Scalar)
    requires op != EqOp && op != NeOp && op != AndOp
    requires Covers(left, x) && right != {}
    requires if Truthy(x) then z == x else Covers(right, z)
    ensures Covers(CombineAll(op, left, right), z)
    ensures (!Truthy(x) ==> Exact(right, z)) ==> Exact(CombineAll(op, left, right), z)
  {
    var a := Witness(left, x);
    var b :| b in right;
    if Truthy(x) {
      CombineMember(op, left, right, a, b, a);
    } else {
      b := Witness(right, z);
      CombineMember(op, left, right, a, b, b);
    }
  }

  lemma CallSound(name: string, args: seq<Expr>, vs: seq<Scalar>, ctx: Context, w: World)
    requires |vs| == |args| && Allows(ctx, w) && ActualCall(name, vs, w).Some?
    requires forall k :: 0 <= k < |args| ==> Covers(Values(args[k], ctx), vs[k])
    requires forall k :: 0 <= k < |args| && NoStandIn(args[k], ctx) ==> Exact(Values(args[k], ctx), vs[k])
    requires TestNamed(name).Some? && |args| == 2 ==> FaithfulTest(TestNamed(name).value, args[0], args[1], ctx, w)
    requires name == "format" ==> forall k :: 1 <= k < |args| ==> AlikeTexts(Values(args[k], ctx), ctx, w)
    ensures Exact(CallValues(name, AllValues(args, ctx), ctx), ActualCall(name, vs, w).value)
  {
    var sets := AllValues(args, ctx);
    if name == "format" && vs != [] {
      FormatSound(sets, vs, ctx, w);
    } else if name == "fromJSON" && |args| == 1 {
      var a := Witness(sets[0], vs[0]);
      assert Decoded(a, ctx) in CallValues(name, sets, ctx);
    } else if TestNamed(name).Some? && |args| == 2 {
      assert NoStandIn(args[0], ctx) ==> Exact(sets[0], vs[0]);
      assert NoStandIn(args[1], ctx) ==> Exact(sets[1], vs[1]);
      TestSound(TestNamed(name).value, sets[0], sets[1], vs[0], vs[1], ctx, w);
    }
  }

  lemma TestSound(test: Test, left: set<Value>, right: set<Value>, x: Scalar, y: Scalar, ctx: Context, w: World)
    requires Covers(left, x) && Covers(right, y) && AlikeNumbers(left, ctx, w) && AlikeNumbers(right, ctx, w)
    requires Exact(left, x) || LeftStands(test, right, w)
    requires Exact(right, y) || RightStands(test, left, w)
    ensures Known(Bool(Passes(test, Lower(Text(x, w.number)), Lower(Text(y, w.number)))))
        in TestAll(test, left, right, ctx)
  {
    var a, b := Witness(left, x), Witness(right, y);
    var r := Known(Bool(Passes(test, Lower(Text(x, w.number)), Lower(Text(y, w.number)))));
    if a.Known? && b.Known? {
      LeftStandsAt(test, right, b, w);
      RightStandsAt(test, left, a, w);
      SameOutcome(test, a.v, b.v, x, y, w.number);
      KnownTest(test, left, right, a, b, ctx, w);
    }
    TestMember(test, left, right, a, b, r, ctx);
  }

  lemma LeftStandsAt(test: Test, right: set<Value>, b: Value, w: World)
    requires b in right && b.Known?
    ensures LeftStands(test, right, w) ==> StandsLeft(test, Lower(Text(b.v, w.number)), Lower(w.number(0.0)))
  {
  }

  lemma RightStandsAt(test: Test, left: set<Value>, a: Value, w: World)
    requires a in left && a.Known?
    ensures RightStands(test, left, w) ==> StandsRight(test, Lower(Text(a.v, w.number)), Lower(w.number(0.0)))
  {
  }

  lemma KnownTest(test: Test, left: set<Value>, right: set<Value>, a: Value, b: Value, ctx: Context, w: World)
    requires a in left && b in right && a.Known? && b.Known? && AlikeNumbers(left, ctx, w)
      && AlikeNumbers(right, ctx, w)
    ensures TestValues(test, a, b, ctx) ==
            {Known(Bool(Passes(test, Lower(Text(a.v, w.number)), Lower(Text(b.v, w.number)))))}
  {
    AlikeText(left, a, ctx, w);
    AlikeText(right, b, ctx, w);
  }

  lemma TestMember(test: Test, left: set<Value>, right: set<Value>, a: Value, b: Value, r: Value, ctx: Context)
    requires a in left && b in right && r in TestValues(test, a, b, ctx)
    ensures r in TestAll(test, left, right, ctx)
  {
  }

  lemma AlikeText(values: set<Value>, a: Value, ctx: Context, w: World)
    requires AlikeNumbers(values, ctx, w) && a in values && a.Known?
    ensures Text(a.v, ctx.number) == Text(a.v, w.number)
  {
  }

  /** Each operand is the actual one, or stands in for it where that is exact. */
  lemma SameOutcome(test: Test, a: Scalar, b: Scalar, x: Scalar, y: Scalar, number: real -> string)
    requires || a == x
             || (a == Bool(false) && !Truthy(x) && StandsLeft(test, Lower(Text(b, number)), Lower(number(0.0))))
    requires || b == y
             || (b == Bool(false) && !Truthy(y) && StandsRight(test, Lower(Text(a, number)), Lower(number(0.0))))
    ensures Passes(test, Lower(Text(x, number)), Lower(Text(y, number))) ==
            Passes(test, Lower(Text(a, number)), Lower(Text(b, number)))
  {
    TestStandInExact(test, Lower(Text(b, number)), Lower(Text(a, number)), number);
    FalseStandsNot(test, number);
  }

  /** The value itself, or the unknown element. */
  ghost function ExactWitness(values: set<Value>, x: Scalar): (a: Value)
    requires Exact(values, x)
    ensures a in values && (a == Unknown || a == Known(x))
  {
    if Known(x) in values then Known(x) else Unknown
  }

  /** Where every value is written alike, nothing is a stand-in, and the value itself is written alike. */
  lemma AlikeExact(values: set<Value>, x: Scalar, ctx: Context, w: World)
    requires Covers(values, x) && AlikeTexts(values, ctx, w)
    ensures Exact(values, x)
    ensures Known(x) in values ==> PythonText(x, ctx.number) == Text(x, w.number)
  {
    assert PythonText(Bool(false), ctx.number)[0] != Text(Bool(false), w.number)[0];
    assert Known(Bool(false)) !in values;
  }

  lemma FormatSound(sets: seq<set<Value>>, vs: seq<Scalar>, ctx: Context, w: World)
    requires |vs| == |sets| && vs != [] && ActualCall("format", vs, w).Some?
    requires forall k :: 0 <= k < |sets| ==> Covers(sets[k], vs[k])
    requires forall k :: 1 <= k < |sets| ==> AlikeTexts(sets[k], ctx, w)
    ensures Exact(CallValues("format", sets, ctx), ActualCall("format", vs, w).value)
  {
    var row := seq(|vs|, k requires 0 <= k < |vs| =>
      if k == 0 then Witness(sets[k], vs[k]) else WitnessOf(sets[k], vs[k], ctx, w));
    assert row in Rows(sets);
    assert FormatRow(row, ctx) in CallValues("format", sets, ctx);
    FormatRowSound(row, vs, ctx, w);
  }

  ghost function WitnessOf(values: set<Value>, x: Scalar, ctx: Context, w: World): (a: Value)
    ensures Covers(values, x) && AlikeTexts(values, ctx, w) ==>
              a in values && (a == Unknown || (a == Known(x) && PythonText(x, ctx.number) == Text(x, w.number)))
  {
    if Covers(values, x) && AlikeTexts(values, ctx, w) then
      AlikeExact(values, x, ctx, w);
      ExactWitness(values, x)
    else Unknown
  }

  lemma FormatRowSound(row: seq<Value>, vs: seq<Scalar>, ctx: Context, w: World)
    requires |row| == |vs| && vs != []
    requires row[0].Unknown? || row[0] == Known(vs[0]) || !row[0].v.Str?
    requires forall k :: 1 <= k < |row| ==>
      row[k].Unknown? || (row[k] == Known(vs[k]) && PythonText(vs[k], ctx.number) == Text(vs[k], w.number))
    ensures FormatRow(row, ctx).Known? ==> ActualCall("format", vs, w) == Some(FormatRow(row, ctx).v)
  {
    if Unknown !in row && row[0].v.Str? {
      assert PythonTexts(row[1..], ctx.number) == Texts(vs[1..], w.number);
    }
  }

  lemma {:induction false} NonEmpty(e: Expr, ctx: Context)
    requires forall name :: name in ctx.vars ==> ctx.vars[name] != {}
    ensures Values(e, ctx) != {}
  {
    match e
    case Leaf(_) =>
    case Not(operand) => NonEmpty(operand, ctx); var a :| a in Values(operand, ctx); assert MayHold(a) || MayFail(a);
    case Paren(inner) => NonEmpty(inner, ctx);
    case Call(name, args) =>
      var sets := AllValues(args, ctx);
      assert sets == seq(|args|, k requires 0 <= k < |args| => Values(args[k], ctx));
      forall k | 0 <= k < |args| ensures sets[k] != {} {
        NonEmpty(args[k], ctx);
      }
      CallNonEmpty(TokenText(name), sets, ctx);
    case Binary(op, left, right) =>
      NonEmpty(left, ctx);
      NonEmpty(right, ctx);
      var a, b :| a in Values(left, ctx) && b in Values(right, ctx);
      assert Combine(op, a, b) != {} by {
        assert true in EqualValues(a, b) || false in EqualValues(a, b);
        assert op == EqOp ==> Known(Bool(true)) in Combine(op, a, b) || Known(Bool(false)) in Combine(op, a, b);
        assert op == NeOp ==> Known(Bool(true)) in Combine(op, a, b) || Known(Bool(false)) in Combine(op, a, b);
      }
      var r :| r in Combine(op, a, b);
      CombineMember(op, Values(left, ctx), Values(right, ctx), a, b, r);
  }

  lemma CallNonEmpty(name: string, sets: seq<set<Value>>, ctx: Context)
    requires forall k :: 0 <= k < |sets| ==> sets[k] != {}
    ensures CallValues(name, sets, ctx) != {}
  {
    var row := seq(|sets|, k requires 0 <= k < |sets| => AnyOf(sets[k]));
    assert row in Rows(sets);
    if name == "format" && sets != [] {
      assert FormatRow(row, ctx) in CallValues(name, sets, ctx);
    } else if name == "fromJSON" && |sets| == 1 {
      assert Decoded(row[0], ctx) in CallValues(name, sets, ctx);
    } else if TestNamed(name).Some? && |sets| == 2 {
      var r :| r in TestValues(TestNamed(name).value, row[0], row[1], ctx);
      assert r in CallValues(name, sets, ctx);
    }
  }

  ghost function AnyOf(values: set<Value>): (a: Value)
    requires values != {}
    ensures a in values
  {
    var a :| a in values;
    a
  }

  lemma LeafSound(token: Token, ctx: Context, w: World)
    requires Allows(ctx, w) && FaithfulLeaf(token, ctx, w.payloads)
    ensures Exact(LeafValues(token, ctx), Actual(Leaf(token), w).value)
  {
    var text := TokenText(token);
    if Constant(token).None? && text !in ctx.vars && AbsentPayload(text, ctx) {
      assert Exact(Events(ctx), w.vars(EVENT_NAME));
      var k: nat :| k < |PAYLOADS| && PAYLOADS[k].stem <= text;
      PresentIsCarried(text, k, ctx, w);
    }
  }

  lemma PresentIsCarried(text: string, k: nat, ctx: Context, w: World)
    requires Allows(ctx, w) && k < |PAYLOADS| && PAYLOADS[k].stem <= text && Exact(Events(ctx), w.vars(EVENT_NAME))
    ensures w.vars(text) == Null || Carried(text, ctx, w.payloads)
  {
    if w.vars(text) != Null {
      var event :| EventCarries(event, k, w.payloads) && w.vars(EVENT_NAME) == Str(event);
    }
  }

  // ---- where the restrictions come from --------------------------------------------------

  predicate PayloadName(name: string) {
    exists k :: 0 <= k < |PAYLOADS| && PAYLOADS[k].stem <= name
  }

  /** The value of this token is among its possible values in every allowed run with these payloads. */
  ghost predicate CoversRuns(token: Token, ctx: Context, payloads: string -> set<string>) {
    forall w :: Allows(ctx, w) && w.payloads == payloads ==> Exact(LeafValues(token, ctx), w.vars(TokenText(token)))
  }

  /** Whatever payloads the events carry: where one is taken to be absent, null covers every allowed run if and only if
      no event that the context leaves open carries it. */
  lemma AbsentPayloadExact(token: Token, ctx: Context, payloads: string -> set<string>, some: World)
    requires Constant(token).None? && TokenText(token) !in ctx.vars && AbsentPayload(TokenText(token), ctx)
    requires Allows(ctx, some) && some.payloads == payloads && forall name :: name in ctx.vars ==> !PayloadName(name)
    ensures LeafValues(token, ctx) == {Known(Null)}
    ensures CoversRuns(token, ctx, payloads) <==> !Carried(TokenText(token), ctx, payloads)
  {
    if Carried(TokenText(token), ctx, payloads) {
      AbsentPayloadRuns(token, ctx, some);
    } else {
      AbsentPayloadCovers(token, ctx, payloads);
    }
  }

  lemma AbsentPayloadCovers(token: Token, ctx: Context, payloads: string -> set<string>)
    requires Constant(token).None? && !Carried(TokenText(token), ctx, payloads)
    ensures CoversRuns(token, ctx, payloads)
  {
    forall w | Allows(ctx, w) && w.payloads == payloads
      ensures Exact(LeafValues(token, ctx), w.vars(TokenText(token)))
    {
      LeafSound(token, ctx, w);
    }
  }

  lemma AbsentPayloadRuns(token: Token, ctx: Context, some: World)
    requires LeafValues(token, ctx) == {Known(Null)} && TokenText(token) !in ctx.vars && Allows(ctx, some)
    requires Carried(TokenText(token), ctx, some.payloads) && forall name :: name in ctx.vars ==> !PayloadName(name)
    ensures !CoversRuns(token, ctx, some.payloads)
  {
    var w := AbsentPayloadMissed(TokenText(token), ctx, some);
    RunMissed(token, ctx, w);
  }

  lemma RunMissed(token: Token, ctx: Context, w: World)
    requires LeafValues(token, ctx) == {Known(Null)} && Allows(ctx, w) && w.vars(TokenText(token)) == Bool(true)
    ensures !CoversRuns(token, ctx, w.payloads)
  {
    assert !Exact({Known(Null)}, w.vars(TokenText(token)));
  }

  /** A run like this one, but for another event, with a value in that event's payload and no other payload. */
  function Elsewhere(some: World, text: string, event: string): World {
    some.(vars := name =>
      if name == EVENT_NAME then Str(event)
      else if name == text then Bool(true)
      else if PayloadName(name) then Null
      else some.vars(name))
  }

  /** The run that is missed: one of the events that carry the payload. */
  lemma AbsentPayloadMissed(text: string, ctx: Context, some: World) returns (w: World)
    requires text !in ctx.vars && Carried(text, ctx, some.payloads)
    requires Allows(ctx, some) && forall name :: name in ctx.vars ==> !PayloadName(name)
    ensures Allows(ctx, w) && w.payloads == some.payloads && w.vars(text) == Bool(true)
  {
    var k: nat, event :| k < |PAYLOADS| && PAYLOADS[k].stem <= text && EventCarries(event, k, some.payloads)
                         && Exact(Events(ctx), Str(event));
    w := Elsewhere(some, text, event);
    EventIsNoPayload(text);
    ElsewhereExact(text, event, ctx, some);
    ElsewherePayloads(text, event, k, some);
  }

  lemma ElsewhereExact(text: string, event: string, ctx: Context, some: World)
    requires text !in ctx.vars && Exact(Events(ctx), Str(event)) && Allows(ctx, some)
    requires forall name :: name in ctx.vars ==> !PayloadName(name)
    ensures forall name :: name in ctx.vars ==> Exact(ctx.vars[name], Elsewhere(some, text, event).vars(name))
  {
  }

  lemma ElsewherePayloads(text: string, event: string, k: nat, some: World)
    requires k < |PAYLOADS| && PAYLOADS[k].stem <= text && EventCarries(event, k, some.payloads)
    ensures var w := Elsewhere(some, text, event); forall j, name :: 0 <= j < |PAYLOADS| && PAYLOADS[j].stem <= name ==>
      w.vars(name) == Null || exists e :: EventCarries(e, j, w.payloads) && w.vars(EVENT_NAME) == Str(e)
  {
    var w := Elsewhere(some, text, event);
    forall j: nat, name | j < |PAYLOADS| && PAYLOADS[j].stem <= name
      ensures w.vars(name) == Null || exists e :: EventCarries(e, j, w.payloads) && w.vars(EVENT_NAME) == Str(e)
    {
      EventIsNoPayload(name);
      if name == text {
        StemsDiffer(text, j, k);
        assert EventCarries(event, j, w.payloads);
      }
    }
  }

  lemma EventIsNoPayload(name: string)
    ensures PayloadName(name) ==> name != EVENT_NAME
  {
    if k :| 0 <= k < |PAYLOADS| && PAYLOADS[k].stem <= name {
      assert |PAYLOADS[k].stem| > 12 && PAYLOADS[k].stem[12] == '.';
      assert name[12] == PAYLOADS[k].stem[12];
      assert EVENT_NAME[12] == '_';
    }
  }

  lemma StemsDiffer(text: string, j: nat, k: nat)
    requires j < |PAYLOADS| && k < |PAYLOADS| && PAYLOADS[j].stem <= text && PAYLOADS[k].stem <= text
    ensures j == k
  {
    assert PAYLOADS[0].stem[13] == 'p' && PAYLOADS[1].stem[13] == 'm';
    assert PAYLOADS[2].stem[13] == 'w' && PAYLOADS[3].stem[13] == 'i';
    assert text[13] == PAYLOADS[j].stem[13] == PAYLOADS[k].stem[13];
  }

  const NOTHING := Context(map[], n => "", s => None)

  /** `(input && '0') == '0'`, for any unknown context and any literal that is a zero text: the stand-in
      compares equal to it, so the interpreter claims `true` only, and GitHub computes `false` when the
      input is empty. */
  lemma StandInUnsound(input: Token, zero: Token, w: World)
    requires Constant(input).None? && zero.Literal? && ZeroText(Str(Unquote(zero.body)))
    requires w.vars(TokenText(input)) == Str("")
    ensures var e := Binary(EqOp, Paren(Binary(AndOp, Leaf(input), Leaf(zero))), Leaf(zero));
      Actual(e, w) == Some(Bool(false)) && Values(e, NOTHING) == {Known(Bool(true))}
  {
    var z := Str(Unquote(zero.body));
    StandInValues(input, zero, z);
    StandInCompared(z);
    BinaryValues(EqOp, Paren(Binary(AndOp, Leaf(input), Leaf(zero))), Leaf(zero), NOTHING);
    StandInActual(input, zero, z, w);
  }

  lemma BinaryValues(op: Token, left: Expr, right: Expr, ctx: Context)
    ensures Values(Binary(op, left, right), ctx) == CombineAll(op, Values(left, ctx), Values(right, ctx))
  {
  }

  lemma StandInValues(input: Token, zero: Token, z: Scalar)
    requires Constant(input).None? && Constant(zero) == Some(z)
    ensures Values(Paren(Binary(AndOp, Leaf(input), Leaf(zero))), NOTHING) == {Known(Bool(false)), Known(z)}
  {
    assert LeafValues(input, NOTHING) == {Unknown};
    StandInAnd(input, zero, z, NOTHING);
  }

  /** An unknown left side of `&&` leaves the stand-in and the right side. */
  lemma StandInAnd(input: Token, zero: Token, z: Scalar, ctx: Context)
    requires LeafValues(input, ctx) == {Unknown} && Constant(zero) == Some(z)
    ensures Values(Binary(AndOp, Leaf(input), Leaf(zero)), ctx) == {Known(Bool(false)), Known(z)}
  {
    assert Values(Leaf(zero), ctx) == {Known(z)} && Values(Leaf(input), ctx) == {Unknown};
    BinaryValues(AndOp, Leaf(input), Leaf(zero), ctx);
    UnknownAnd(z);
  }

  lemma UnknownAnd(z: Scalar)
    ensures CombineAll(AndOp, {Unknown}, {Known(z)}) == {Known(Bool(false)), Known(z)}
  {
    assert Combine(AndOp, Unknown, Known(z)) == {Known(Bool(false)), Known(z)};
    CombineMember(AndOp, {Unknown}, {Known(z)}, Unknown, Known(z), Known(Bool(false)));
    CombineMember(AndOp, {Unknown}, {Known(z)}, Unknown, Known(z), Known(z));
  }

  lemma StandInActual(input: Token, zero: Token, z: Scalar, w: World)
    requires Constant(input).None? && Constant(zero) == Some(z) && z.Str? && z.s != ""
    requires w.vars(TokenText(input)) == Str("")
    ensures Actual(Binary(EqOp, Paren(Binary(AndOp, Leaf(input), Leaf(zero))), Leaf(zero)), w) == Some(Bool(false))
  {
    var left := Binary(AndOp, Leaf(input), Leaf(zero));
    assert Actual(left, w) == Some(Str(""));
    assert Actual(Paren(left), w) == Some(Str(""));
    assert |Lower("")| == 0 && |Lower(z.s)| > 0;
  }

  lemma StandInCompared(z: Scalar)
    requires ZeroText(z)
    ensures CombineAll(EqOp, {Known(Bool(false)), Known(z)}, {Known(z)}) == {Known(Bool(true))}
  {
    var left := {Known(Bool(false)), Known(z)};
    EqualOnly(Known(Bool(false)), Known(z));
    EqualOnly(Known(z), Known(z));
    CombineMember(EqOp, left, {Known(z)}, Known(z), Known(z), Known(Bool(true)));
  }

  lemma EqualOnly(a: Value, b: Value)
    requires a.Known? && b.Known? && LooselyEqual(a.v, b.v)
    ensures Combine(EqOp, a, b) == {Known(Bool(true))}
  {
  }

  lemma ZeroIsZeroText()
    ensures ZeroText(Str(Unquote("0")))
  {
    assert Unquote("0"[1..]) == "";
    assert DigitRun("0"[1..]) == 0;
    assert "0"[..1] == "0" && "0"[..0] == "" && "0"[1..] == "";
    assert Natural("0") == 0;
  }
}
