/** The interpreter claims nothing that could not be: each operator gives exactly the outcomes of the values its
    operands stand for, and an expression whose names are all known has GitHub's value and no other. */
module Precision {
  import opened Wrappers
  import opened Scalars
  import opened Syntax
  import opened Meaning

  /** The actual values that a possible value stands for. */
  predicate Stands(a: Value, x: Scalar) {
    a.Unknown? || a == Known(x)
  }

  /** What an operator makes of operands with these actual values: a comparison, or one of the operands. A falsy left
      side of `&&` that is not known is written `false`. */
  function Outcome(op: Token, a: Value, b: Value, x: Scalar, y: Scalar): Value {
    match op
    case EqOp => Known(Bool(LooselyEqual(x, y)))
    case NeOp => Known(Bool(!LooselyEqual(x, y)))
    case AndOp => if Truthy(x) then b else if a.Known? then a else Known(Bool(false))
    case _ => if Truthy(x) then a else b
  }

  ghost predicate Comes(op: Token, a: Value, b: Value, r: Value) {
    exists x, y :: Stands(a, x) && Stands(b, y) && r == Outcome(op, a, b, x, y)
  }

  /** One pair of operands: exactly the outcomes for the values they stand for. */
  lemma CombineExact(op: Token, a: Value, b: Value, r: Value)
    ensures r in Combine(op, a, b) <==> Comes(op, a, b, r)
  {
    var x, y := if a.Known? then a.v else Null, if b.Known? then b.v else Null;
    if op == EqOp || op == NeOp {
      if r in Combine(op, a, b) {
        ComparesBoth(op, a, b, r);
      }
      if Comes(op, a, b, r) {
        var x, y :| Stands(a, x) && Stands(b, y) && r == Outcome(op, a, b, x, y);
        assert LooselyEqual(x, y) in EqualValues(a, b);
      }
    } else {
      Chooses(op, a, b, r, y);
    }
  }

  lemma Chooses(op: Token, a: Value, b: Value, r: Value, y: Scalar)
    requires op != EqOp && op != NeOp && Stands(b, y)
    ensures r in Combine(op, a, b) <==> Comes(op, a, b, r)
  {
    if a.Unknown? {
      assert Stands(a, Bool(true)) && Stands(a, Bool(false));
      assert r == Outcome(op, a, b, Bool(true), y) ==> Comes(op, a, b, r);
      assert r == Outcome(op, a, b, Bool(false), y) ==> Comes(op, a, b, r);
    } else {
      assert r == Outcome(op, a, b, a.v, y) ==> Comes(op, a, b, r);
    }
  }

  lemma ComparesBoth(op: Token, a: Value, b: Value, r: Value)
    requires (op == EqOp || op == NeOp) && r in Combine(op, a, b)
    ensures Comes(op, a, b, r)
  {
    var equal := if op == EqOp then r.v.b else !r.v.b;
    if a.Known? && b.Known? {
      assert r == Outcome(op, a, b, a.v, b.v);
    } else if a.Unknown? {
      var y := if b.Known? then b.v else Null;
      var x := Comparing(y, equal);
      assert r == Outcome(op, a, b, x, y);
    } else {
      var y := Comparing(a.v, equal);
      Symmetric(a.v, y);
      assert r == Outcome(op, a, b, a.v, y);
    }
  }

  /** Every value has one it equals, and one it does not. */
  lemma Comparing(y: Scalar, equal: bool) returns (x: Scalar)
    ensures LooselyEqual(x, y) == equal
  {
    if equal {
      x := y;
    } else if y.Str? {
      x := Str(y.s + "x");
      assert |Lower(x.s)| == |Lower(y.s)| + 1;
    } else {
      x := Num(NumberOf(y).value + 1.0);
    }
  }

  lemma Symmetric(x: Scalar, y: Scalar)
    ensures LooselyEqual(x, y) == LooselyEqual(y, x)
  {
  }

  lemma CombineAllExact(op: Token, left: set<Value>, right: set<Value>, r: Value)
    ensures r in CombineAll(op, left, right) <==> exists a, b :: a in left && b in right && Comes(op, a, b, r)
  {
    if r in CombineAll(op, left, right) {
      var a, b :| a in left && b in right && r in Combine(op, a, b);
      CombineExact(op, a, b, r);
    }
    if a, b :| a in left && b in right && Comes(op, a, b, r) {
      CombineExact(op, a, b, r);
      CombineMember(op, left, right, a, b, r);
    }
  }

  /** A negation is possible exactly when an operand could have that truth. */
  lemma NegationsExact(values: set<Value>, r: Value)
    ensures r in Negations(values) <==>
            exists a, x :: a in values && Stands(a, x) && r == Known(Bool(!Truthy(x)))
  {
    if r in Negations(values) {
      var a :| a in values && (if r == Known(Bool(true)) then MayFail(a) else MayHold(a));
      var x := if a.Known? then a.v else if r == Known(Bool(true)) then Null else Bool(true);
      assert Stands(a, x) && r == Known(Bool(!Truthy(x)));
    }
    if a, x :| a in values && Stands(a, x) && r == Known(Bool(!Truthy(x))) {
      assert if Truthy(x) then MayHold(a) else MayFail(a);
    }
  }

  // ---- everything known ------------------------------------------------------------------

  /** This function is one the interpreter computes, its template and JSON text are in order, and Python writes its
      arguments as GitHub does. */
  ghost predicate Computes(name: string, vs: seq<Scalar>, ctx: Context, w: World) {
    || (name == "always" && vs == [])
    || (name == "format" && vs != [] && vs[0].Str? && Format(vs[0].s, Texts(vs[1..], w.number)).Some?
        && forall k :: 1 <= k < |vs| ==> PythonText(vs[k], ctx.number) == Text(vs[k], w.number))
    || (name == "fromJSON" && |vs| == 1 && vs[0].Str? && w.decode(vs[0].s).Some? && ctx.decode == w.decode)
    || (TestNamed(name).Some? && |vs| == 2 && AlikeNumber(vs[0], ctx, w) && AlikeNumber(vs[1], ctx, w))
  }

  /** Every name has its one value, and every function is computed. */
  ghost predicate AllKnown(e: Expr, ctx: Context, w: World) {
    match e
    case Leaf(token) => LeafValues(token, ctx) == {Known(Actual(e, w).value)}
    case Not(operand) => AllKnown(operand, ctx, w)
    case Paren(inner) => AllKnown(inner, ctx, w)
    case Call(name, args) =>
      && (forall k :: 0 <= k < |args| ==> AllKnown(args[k], ctx, w))
      && (ActualAll(args, w).Some? ==> Computes(TokenText(name), ActualAll(args, w).value, ctx, w))
    case Binary(_, left, right) => AllKnown(left, ctx, w) && AllKnown(right, ctx, w)
  }

  /** Then the value GitHub computes is the only possible one. */
  lemma {:induction false} Precise(e: Expr, ctx: Context, w: World)
    requires AllKnown(e, ctx, w)
    ensures Actual(e, w).Some? && Values(e, ctx) == {Known(Actual(e, w).value)}
    decreases e, 0
  {
    match e
    case Leaf(_) =>
    case Not(operand) =>
      Precise(operand, ctx, w);
      NegationOf(Actual(operand, w).value);
    case Paren(inner) => Precise(inner, ctx, w);
    case Call(name, args) =>
      AllPrecise(e, args, ctx, w);
      CallPrecise(TokenText(name), args, ActualAll(args, w).value, ctx, w);
      assert AllValues(args, ctx) == seq(|args|, k requires 0 <= k < |args| => Values(args[k], ctx));
    case Binary(op, left, right) =>
      Precise(left, ctx, w);
      Precise(right, ctx, w);
      PairOf(op, Actual(left, w).value, Actual(right, w).value);
      BinaryValues(op, left, right, ctx);
      BinaryActual(e, w);
  }

  lemma {:induction false} AllPrecise(e: Expr, args: seq<Expr>, ctx: Context, w: World)
    requires forall k :: 0 <= k < |args| ==> args[k] < e && AllKnown(args[k], ctx, w)
    ensures ActualAll(args, w).Some?
    ensures forall k :: 0 <= k < |args| ==> Values(args[k], ctx) == {Known(ActualAll(args, w).value[k])}
    decreases e, 0, |args|
  {
    if args != [] {
      Precise(args[0], ctx, w);
      AllPrecise(e, args[1..], ctx, w);
      forall k | 1 <= k < |args| ensures Values(args[k], ctx) == {Known(ActualAll(args, w).value[k])} {
        assert args[1..][k - 1] == args[k];
      }
    }
  }

  lemma NegationOf(x: Scalar)
    ensures Negations({Known(x)}) == {Known(Bool(!Truthy(x)))}
  {
    var a := Known(x);
    assert a in {Known(x)};
    assert if Truthy(x) then MayHold(a) && !MayFail(a) else MayFail(a) && !MayHold(a);
  }

  lemma PairOf(op: Token, x: Scalar, y: Scalar)
    ensures CombineAll(op, {Known(x)}, {Known(y)}) == {Outcome(op, Known(x), Known(y), x, y)}
  {
    forall r ensures r in CombineAll(op, {Known(x)}, {Known(y)}) <==> r == Outcome(op, Known(x), Known(y), x, y) {
      CombineAllExact(op, {Known(x)}, {Known(y)}, r);
      OnlyOutcome(op, x, y, r);
    }
  }

  lemma OnlyOutcome(op: Token, x: Scalar, y: Scalar, r: Value)
    ensures Comes(op, Known(x), Known(y), r) <==> r == Outcome(op, Known(x), Known(y), x, y)
  {
    assert Stands(Known(x), x) && Stands(Known(y), y);
  }

  lemma BinaryActual(e: Expr, w: World)
    requires e.Binary? && Actual(e.left, w).Some? && Actual(e.right, w).Some?
    ensures var x, y := Actual(e.left, w).value, Actual(e.right, w).value;
      Actual(e, w).Some? && Known(Actual(e, w).value) == Outcome(e.op, Known(x), Known(y), x, y)
  {
  }

  lemma CallPrecise(name: string, args: seq<Expr>, vs: seq<Scalar>, ctx: Context, w: World)
    requires |vs| == |args| && forall k :: 0 <= k < |args| ==> Values(args[k], ctx) == {Known(vs[k])}
    requires Computes(name, vs, ctx, w)
    ensures ActualCall(name, vs, w).Some?
    ensures CallValues(name, AllValues(args, ctx), ctx) == {Known(ActualCall(name, vs, w).value)}
  {
    var sets := AllValues(args, ctx);
    if name == "always" && vs == [] {
    } else if name == "format" && vs != [] {
      FormatPrecise(sets, vs, ctx, w);
    } else if name == "fromJSON" && |vs| == 1 {
      assert forall a :: a in sets[0] <==> a == Known(vs[0]);
    } else {
      TestPrecise(name, sets, vs, ctx, w);
    }
  }

  lemma FormatPrecise(sets: seq<set<Value>>, vs: seq<Scalar>, ctx: Context, w: World)
    requires |vs| == |sets| && (forall k :: 0 <= k < |sets| ==> sets[k] == {Known(vs[k])})
    requires vs != [] && Computes("format", vs, ctx, w)
    ensures ActualCall("format", vs, w).Some?
    ensures CallValues("format", sets, ctx) == {Known(ActualCall("format", vs, w).value)}
  {
    FormatComputes(vs, ctx, w);
    var row := seq(|vs|, k requires 0 <= k < |vs| => Known(vs[k]));
    forall other | other in Rows(sets) ensures other == row {
    }
    assert row in Rows(sets);
    assert PythonTexts(row[1..], ctx.number) == Texts(vs[1..], w.number);
    assert FormatRow(row, ctx) == Known(ActualCall("format", vs, w).value);
  }

  lemma FormatComputes(vs: seq<Scalar>, ctx: Context, w: World)
    requires vs != [] && Computes("format", vs, ctx, w)
    ensures vs[0].Str? && Format(vs[0].s, Texts(vs[1..], w.number)).Some?
    ensures forall k :: 1 <= k < |vs| ==> PythonText(vs[k], ctx.number) == Text(vs[k], w.number)
    ensures ActualCall("format", vs, w) == Some(Str(Format(vs[0].s, Texts(vs[1..], w.number)).value))
  {
    assert "format"[0] == 'f' && "always"[0] == 'a' && "fromJSON"[1] == 'r' && "format"[1] == 'o';
    assert TestNamed("format").None?;
  }

  lemma TestPrecise(name: string, sets: seq<set<Value>>, vs: seq<Scalar>, ctx: Context, w: World)
    requires |vs| == 2 == |sets| && sets[0] == {Known(vs[0])} && sets[1] == {Known(vs[1])}
    requires name != "format" && TestNamed(name).Some? && AlikeNumber(vs[0], ctx, w) && AlikeNumber(vs[1], ctx, w)
    ensures ActualCall(name, vs, w).Some?
    ensures CallValues(name, sets, ctx) == {Known(ActualCall(name, vs, w).value)}
  {
    var test := TestNamed(name).value;
    var r := Known(Bool(Passes(test, Lower(Text(vs[0], w.number)), Lower(Text(vs[1], w.number)))));
    assert TestValues(test, Known(vs[0]), Known(vs[1]), ctx) == {r};
    TestMember(test, sets[0], sets[1], Known(vs[0]), Known(vs[1]), r, ctx);
    assert TestAll(test, sets[0], sets[1], ctx) == {r};
  }

  /** The functions the interpreter knows, by name and number of arguments; every other call has the unknown value. */
  lemma SupportedExact(name: string, args: seq<set<Value>>, ctx: Context)
    ensures Supported(name, |args|) <==>
      || (name == "always" && |args| == 0) || (name == "format" && |args| >= 1) || (name == "fromJSON" && |args| == 1)
      || ((name == "contains" || name == "startsWith" || name == "endsWith") && |args| == 2)
    ensures !Supported(name, |args|) ==> CallValues(name, args, ctx) == {Unknown}
  {
  }

  // ---- absent payloads -------------------------------------------------------------------

  /** The event is one of those that this payload is listed for. */
  predicate Lists(payload: string, event: string) {
    || (payload == "pull_request" && (event == "pull_request" || event == "pull_request_target"))
    || (payload == "merge_group" && event == "merge_group")
    || (payload == "workflow_run" && event == "workflow_run")
    || (payload == "inputs" && event == "workflow_dispatch")
  }

  ghost predicate Within(text: string, payload: string) {
    exists rest :: text == "github.event." + payload + "." + rest
  }

  /** A name is taken to be null when the context knows of some event, and the name is within one of four payloads
      that is listed for none of the known ones. */
  lemma AbsentExact(text: string, ctx: Context)
    ensures AbsentPayload(text, ctx) <==>
      && Events(ctx) != {}
      && exists payload :: payload in ["pull_request", "merge_group", "workflow_run", "inputs"] && Within(text, payload)
                           && forall event :: Known(Str(event)) in Events(ctx) ==> !Lists(payload, event)
  {
    var payloads := ["pull_request", "merge_group", "workflow_run", "inputs"];
    forall k | 0 <= k < 4
      ensures (PAYLOADS[k].stem <= text <==> Within(text, payloads[k]))
        && forall event :: event in PAYLOADS[k].events <==> Lists(payloads[k], event)
    {
      StemExact(text, k, payloads[k]);
      ListsExact(k, payloads[k]);
    }
    assert forall k :: 0 <= k < 4 ==> payloads[k] in payloads;
  }

  lemma StemExact(text: string, k: nat, payload: string)
    requires k < 4 && payload == ["pull_request", "merge_group", "workflow_run", "inputs"][k]
    ensures PAYLOADS[k].stem <= text <==> Within(text, payload)
  {
    var stem := "github.event." + payload + ".";
    assert PAYLOADS[k].stem == stem;
    if stem <= text {
      assert text == stem + text[|stem|..];
    }
  }

  lemma ListsExact(k: nat, payload: string)
    requires k < 4 && payload == ["pull_request", "merge_group", "workflow_run", "inputs"][k]
    ensures forall event :: event in PAYLOADS[k].events <==> Lists(payload, event)
  {
    assert "pull_request"[0] == 'p' && "merge_group"[0] == 'm' && "workflow_run"[0] == 'w' && "inputs"[0] == 'i';
  }
}
