/** Python's sets hold one of several equal values, and take `true` for 1 and `false` for 0. What that loses. */
module PythonSets {
  import opened Wrappers
  import opened Scalars
  import opened Syntax
  import opened Meaning

  function FlagNumber(v: Scalar): Option<real> {
    match v
    case Bool(b) => Some(if b then 1.0 else 0.0)
    case Num(n) => Some(n)
    case _ => None
  }

  /** Python's equality of possible values; the unknown element equals only itself. */
  predicate Alike(a: Value, b: Value) {
    a == b || (a.Known? && b.Known? && FlagNumber(a.v).Some? && FlagNumber(a.v) == FlagNumber(b.v))
  }

  predicate Separate(values: set<Value>) {
    forall a, b :: a in values && b in values && Alike(a, b) ==> a == b
  }

  ghost predicate HasAlike(values: set<Value>, b: Value) {
    exists a :: a in values && Alike(a, b)
  }

  /** Some of these values, and for each of them an equal one. */
  ghost predicate Represents(some: set<Value>, all: set<Value>) {
    some <= all && forall b :: b in all ==> HasAlike(some, b)
  }

  /** A Python set after adding these values in some order: of equal ones the first. */
  ghost predicate Held(some: set<Value>, all: set<Value>) {
    Represents(some, all) && Separate(some)
  }

  /** A result of the evaluation when every set on the way is a Python set, filled in any order. */
  ghost predicate Result(e: Expr, ctx: Context, s: set<Value>)
    decreases e
  {
    match e
    case Leaf(token) => Held(s, LeafValues(token, ctx))
    case Not(operand) => exists t :: Result(operand, ctx, t) && Held(s, Negations(t))
    case Paren(inner) => Result(inner, ctx, s)
    case Call(name, args) =>
      exists ts: seq<set<Value>> :: && |ts| == |args| && Held(s, CallValues(TokenText(name), ts, ctx))
                                    && forall k :: 0 <= k < |args| ==> Result(args[k], ctx, ts[k])
    case Binary(op, left, right) =>
      exists a, b :: Result(left, ctx, a) && Result(right, ctx, b) && Held(s, CombineAll(op, a, b))
  }

  predicate ReadsText(name: string) {
    name == "format" || TestNamed(name).Some?
  }

  /** No function that looks at text is given equal values of two types. */
  predicate TextSeparate(e: Expr, ctx: Context) {
    match e
    case Leaf(_) => true
    case Not(operand) => TextSeparate(operand, ctx)
    case Paren(inner) => TextSeparate(inner, ctx)
    case Call(name, args) =>
      && (forall k :: 0 <= k < |args| ==> TextSeparate(args[k], ctx))
      && (ReadsText(TokenText(name)) ==> forall k :: 0 <= k < |args| ==> Separate(Values(args[k], ctx)))
    case Binary(_, left, right) => TextSeparate(left, ctx) && TextSeparate(right, ctx)
  }

  // ---- equal values behave alike, but for their text -------------------------------------

  lemma AlikeTruth(a: Value, b: Value)
    requires Alike(a, b)
    ensures MayHold(a) == MayHold(b) && MayFail(a) == MayFail(b)
  {
  }

  lemma AlikeEqual(a: Value, b: Value, c: Value, d: Value)
    requires Alike(a, b) && Alike(c, d)
    ensures EqualValues(a, c) == EqualValues(b, d)
  {
  }

  lemma CombineAlike(op: Token, a: Value, b: Value, c: Value, d: Value, r: Value)
    requires Alike(a, b) && Alike(c, d) && r in Combine(op, b, d)
    ensures HasAlike(Combine(op, a, c), r)
  {
    AlikeEqual(a, b, c, d);
    AlikeTruth(a, b);
    if op == EqOp || op == NeOp {
      assert r in Combine(op, a, c);
    } else if op == AndOp {
      var stand := if b.Unknown? then Known(Bool(false)) else b;
      if MayHold(b) && r == d {
        assert c in Combine(op, a, c);
      } else {
        assert r == stand && (if a.Unknown? then Known(Bool(false)) else a) in Combine(op, a, c);
      }
    } else if MayHold(b) && r == b {
      assert a in Combine(op, a, c);
    } else {
      assert c in Combine(op, a, c);
    }
  }

  lemma AlikeTransitive(a: Value, b: Value, c: Value)
    requires Alike(a, b) && Alike(b, c)
    ensures Alike(a, c)
  {
  }

  lemma HasVia(some: set<Value>, b: Value, c: Value)
    requires HasAlike(some, b) && Alike(b, c)
    ensures HasAlike(some, c)
  {
    var a :| a in some && Alike(a, b);
    AlikeTransitive(a, b, c);
  }

  lemma Transitive(some: set<Value>, more: set<Value>, all: set<Value>)
    requires Represents(some, more) && Represents(more, all)
    ensures Represents(some, all)
  {
    forall c | c in all ensures HasAlike(some, c) {
      HasThrough(some, more, c);
    }
  }

  lemma HasThrough(some: set<Value>, more: set<Value>, c: Value)
    requires Represents(some, more) && HasAlike(more, c)
    ensures HasAlike(some, c)
  {
    var b :| b in more && Alike(b, c);
    HasVia(some, b, c);
  }

  lemma MayHoldSame(some: set<Value>, all: set<Value>)
    requires Represents(some, all)
    ensures (exists a :: a in some && MayHold(a)) <==> (exists a :: a in all && MayHold(a))
  {
    if b :| b in all && MayHold(b) {
      assert HasAlike(some, b);
      var a :| a in some && Alike(a, b);
      AlikeTruth(a, b);
    }
  }

  lemma MayFailSame(some: set<Value>, all: set<Value>)
    requires Represents(some, all)
    ensures (exists a :: a in some && MayFail(a)) <==> (exists a :: a in all && MayFail(a))
  {
    if b :| b in all && MayFail(b) {
      assert HasAlike(some, b);
      var a :| a in some && Alike(a, b);
      AlikeTruth(a, b);
    }
  }

  lemma NegationsRepresent(some: set<Value>, all: set<Value>)
    requires Represents(some, all)
    ensures Negations(some) == Negations(all)
  {
    MayHoldSame(some, all);
    MayFailSame(some, all);
  }

  lemma CombineRepresents(op: Token, a: set<Value>, left: set<Value>, b: set<Value>, right: set<Value>)
    requires Represents(a, left) && Represents(b, right)
    ensures Represents(CombineAll(op, a, b), CombineAll(op, left, right))
  {
    forall r | r in CombineAll(op, left, right) ensures HasAlike(CombineAll(op, a, b), r) {
      var x, y := CombineSource(op, left, right, r);
      PairRepresents(op, a, b, x, y, r);
    }
    CombineGrows(op, a, left, b, right);
  }

  lemma PairRepresents(op: Token, a: set<Value>, b: set<Value>, x: Value, y: Value, r: Value)
    requires HasAlike(a, x) && HasAlike(b, y) && r in Combine(op, x, y)
    ensures HasAlike(CombineAll(op, a, b), r)
  {
    var u :| u in a && Alike(u, x);
    var v :| v in b && Alike(v, y);
    CombineAlike(op, u, x, v, y, r);
    var q :| q in Combine(op, u, v) && Alike(q, r);
    CombineMember(op, a, b, u, v, q);
  }

  lemma CombineGrows(op: Token, a: set<Value>, left: set<Value>, b: set<Value>, right: set<Value>)
    requires a <= left && b <= right
    ensures CombineAll(op, a, b) <= CombineAll(op, left, right)
  {
    forall r | r in CombineAll(op, a, b) ensures r in CombineAll(op, left, right) {
      var u, v := CombineSource(op, a, b, r);
      CombineMember(op, left, right, u, v, r);
    }
  }

  /** Without equal values of two types there is nothing to lose. */
  lemma SeparateSame(some: set<Value>, all: set<Value>)
    requires Represents(some, all) && Separate(all)
    ensures some == all
  {
    forall b | b in all ensures b in some {
      assert HasAlike(some, b);
    }
  }

  lemma DecodedRepresent(some: set<Value>, all: set<Value>, ctx: Context)
    requires Represents(some, all)
    ensures (set a | a in some :: Decoded(a, ctx)) == (set a | a in all :: Decoded(a, ctx))
  {
    forall b | b in all ensures exists a :: a in some && Decoded(a, ctx) == Decoded(b, ctx) {
      assert HasAlike(some, b);
      var a :| a in some && Alike(a, b);
      AlikeDecoded(a, b, ctx);
    }
  }

  lemma AlikeDecoded(a: Value, b: Value, ctx: Context)
    requires Alike(a, b)
    ensures Decoded(a, ctx) == Decoded(b, ctx)
  {
  }

  lemma CallRepresents(name: string, some: seq<set<Value>>, all: seq<set<Value>>, ctx: Context)
    requires |some| == |all| && forall k :: 0 <= k < |all| ==> Represents(some[k], all[k])
    requires ReadsText(name) ==> forall k :: 0 <= k < |all| ==> Separate(all[k])
    ensures CallValues(name, some, ctx) == CallValues(name, all, ctx)
  {
    if ReadsText(name) {
      forall k | 0 <= k < |all| ensures some[k] == all[k] {
        SeparateSame(some[k], all[k]);
      }
      assert some == all;
    } else if name == "fromJSON" && |all| == 1 {
      DecodedRepresent(some[0], all[0], ctx);
    }
  }

  // ---- what an evaluation with Python sets keeps -----------------------------------------

  /** Whatever the order, a result holds some of the values, and an equal one for each, as long as no function that
      looks at text is given equal values of two types. */
  lemma {:induction false} ResultRepresents(e: Expr, ctx: Context, s: set<Value>)
    requires Result(e, ctx, s) && TextSeparate(e, ctx)
    ensures Represents(s, Values(e, ctx))
    decreases e
  {
    match e
    case Leaf(_) =>
    case Not(operand) =>
      var t :| Result(operand, ctx, t) && Held(s, Negations(t));
      ResultRepresents(operand, ctx, t);
      NegationsRepresent(t, Values(operand, ctx));
    case Paren(inner) => ResultRepresents(inner, ctx, s);
    case Call(name, args) =>
      var ts := CallParts(e, ctx, s);
      forall k | 0 <= k < |args| ensures Represents(ts[k], Values(args[k], ctx)) {
        ResultRepresents(args[k], ctx, ts[k]);
      }
      CallResult(name, args, ts, ctx);
    case Binary(op, left, right) =>
      var a, b := BinaryParts(e, ctx, s);
      ResultRepresents(left, ctx, a);
      ResultRepresents(right, ctx, b);
      CombineRepresents(op, a, Values(left, ctx), b, Values(right, ctx));
      Transitive(s, CombineAll(op, a, b), Values(e, ctx));
  }

  lemma CallResult(name: Token, args: seq<Expr>, ts: seq<set<Value>>, ctx: Context)
    requires |ts| == |args| && forall k :: 0 <= k < |args| ==> Represents(ts[k], Values(args[k], ctx))
    requires TextSeparate(Call(name, args), ctx)
    ensures CallValues(TokenText(name), ts, ctx) == Values(Call(name, args), ctx)
  {
    var sets := AllValues(args, ctx);
    assert sets == seq(|args|, k requires 0 <= k < |args| => Values(args[k], ctx));
    CallRepresents(TokenText(name), ts, sets, ctx);
  }

  /** So a condition may hold in a result exactly when it may hold in the full set. */
  lemma ResultHolds(e: Expr, ctx: Context, s: set<Value>)
    requires Result(e, ctx, s) && TextSeparate(e, ctx)
    ensures (exists a :: a in s && MayHold(a)) <==> (exists a :: a in Values(e, ctx) && MayHold(a))
  {
    ResultRepresents(e, ctx, s);
    MayHoldSame(s, Values(e, ctx));
  }

  /** And the value GitHub computes is covered by a result up to equality. */
  lemma ResultSound(e: Expr, ctx: Context, w: World, s: set<Value>)
    requires Result(e, ctx, s) && TextSeparate(e, ctx)
    requires Faithful(e, ctx, w) && Allows(ctx, w) && Actual(e, w).Some?
    ensures var x := Actual(e, w).value;
      || Unknown in s || HasAlike(s, Known(x)) || (!Truthy(x) && HasAlike(s, Known(Bool(false))))
  {
    Sound(e, ctx, w);
    ResultRepresents(e, ctx, s);
    var x := Actual(e, w).value;
    var b := Witness(Values(e, ctx), x);
    assert HasAlike(s, b);
  }

  // ---- every order gives a result --------------------------------------------------------

  lemma HeldExists(all: set<Value>) returns (some: set<Value>)
    ensures Held(some, all)
    decreases |all|
  {
    if all == {} {
      return {};
    }
    var x :| x in all;
    var before := HeldExists(all - {x});
    some := if HasAlike(before, x) then before else before + {x};
    HeldMore(before, x, all);
  }

  lemma HeldMore(before: set<Value>, x: Value, all: set<Value>)
    requires x in all && Held(before, all - {x})
    ensures Held(if HasAlike(before, x) then before else before + {x}, all)
  {
    var some := if HasAlike(before, x) then before else before + {x};
    forall b | b in all ensures HasAlike(some, b) {
      if b == x {
        assert Alike(x, x);
      } else {
        assert HasAlike(before, b);
        var a :| a in before && Alike(a, b);
        assert a in some;
      }
    }
  }

  lemma {:induction false} ResultExists(e: Expr, ctx: Context) returns (s: set<Value>)
    ensures Result(e, ctx, s)
    decreases e, 0
  {
    match e
    case Leaf(token) =>
      s := HeldExists(LeafValues(token, ctx));
    case Not(operand) =>
      var t := ResultExists(operand, ctx);
      s := HeldExists(Negations(t));
    case Paren(inner) =>
      s := ResultExists(inner, ctx);
    case Call(name, args) =>
      var ts := ResultsExist(e, args, ctx);
      s := HeldExists(CallValues(TokenText(name), ts, ctx));
    case Binary(op, left, right) =>
      var a := ResultExists(left, ctx);
      var b := ResultExists(right, ctx);
      s := HeldExists(CombineAll(op, a, b));
  }

  lemma {:induction false} ResultsExist(e: Expr, args: seq<Expr>, ctx: Context) returns (ts: seq<set<Value>>)
    requires forall k :: 0 <= k < |args| ==> args[k] < e
    ensures |ts| == |args| && forall k :: 0 <= k < |args| ==> Result(args[k], ctx, ts[k])
    decreases e, 0, |args|
  {
    ts := [];
    if args != [] {
      var n := |args| - 1;
      var before := ResultsExist(e, args[..n], ctx);
      var last := ResultExists(args[n], ctx);
      ts := before + [last];
      ResultsJoin(args, before, last, ctx);
    }
  }

  lemma ResultsJoin(args: seq<Expr>, before: seq<set<Value>>, last: set<Value>, ctx: Context)
    requires args != [] && |before| == |args| - 1 && Result(args[|args| - 1], ctx, last)
    requires forall k :: 0 <= k < |before| ==> Result(args[..|args| - 1][k], ctx, before[k])
    ensures forall k :: 0 <= k < |args| ==> Result(args[k], ctx, (before + [last])[k])
  {
    forall k | 0 <= k < |args| ensures Result(args[k], ctx, (before + [last])[k]) {
      if k < |before| {
        assert args[..|args| - 1][k] == args[k];
      }
    }
  }

  // ---- what is lost ----------------------------------------------------------------------

  /** `startsWith(flag || 1, 't')`: the flag may be either, but a Python set of `true` and 1 holds one of them.
      Whichever it is, the answer for the other one is missed. */
  lemma TextLost(e: Expr, ctx: Context, w: World, v: World, s: set<Value>)
    requires StartsChoice(e, ctx) && ctx.number(1.0) == "1.0" && Result(e, ctx, s)
    requires w.vars(TokenText(e.args[0].left.token)) == Bool(false) && w.number(1.0) == "1"
    requires v.vars(TokenText(e.args[0].left.token)) == Bool(true)
    ensures Actual(e, w) == Some(Bool(false)) && Actual(e, v) == Some(Bool(true))
    ensures s <= {Known(Bool(true))} || s <= {Known(Bool(false))}
  {
    LostActual(e, ctx, w, Num(1.0));
    LostActual(e, ctx, v, Bool(true));
    Starts();
    var a := ChoiceResult(e, ctx, s);
    StartsEither(a, s, ctx);
  }

  /** `startsWith(flag || 1, 't')`, where the flag may be `true` or `false` */
  predicate StartsChoice(e: Expr, ctx: Context) {
    && e.Call? && |e.args| == 2 && TestNamed(TokenText(e.name)) == Some(StartsWith)
    && FlagOrOne(e.args[0], ctx) && e.args[1].Leaf? && Constant(e.args[1].token) == Some(Str("t"))
  }

  /** `flag || 1` */
  predicate FlagOrOne(e: Expr, ctx: Context) {
    && e.Binary? && e.op == OrOp && e.left.Leaf? && e.right.Leaf? && Constant(e.left.token).None?
    && LeafValues(e.left.token, ctx) == {Known(Bool(true)), Known(Bool(false))}
    && Constant(e.right.token) == Some(Num(1.0))
  }

  /** The one value that a result of `flag || 1` holds. */
  lemma ChoiceResult(e: Expr, ctx: Context, s: set<Value>) returns (a: Value)
    requires StartsChoice(e, ctx) && Result(e, ctx, s)
    ensures a == Known(Bool(true)) || a == Known(Num(1.0))
    ensures s <= TestAll(StartsWith, {a}, {Known(Str("t"))}, ctx)
  {
    var ts := CallParts(e, ctx, s);
    LiteralPart(e.args[1], Str("t"), ctx, ts[1]);
    a := OneOfTwo(e.args[0], ctx, ts[0]);
    StartsValues(TokenText(e.name), ts, ctx);
    TestGrows(StartsWith, ts[0], {a}, ts[1], {Known(Str("t"))}, ctx);
  }

  lemma CallParts(e: Expr, ctx: Context, s: set<Value>) returns (ts: seq<set<Value>>)
    requires e.Call? && Result(e, ctx, s)
    ensures |ts| == |e.args| && forall k :: 0 <= k < |e.args| ==> Result(e.args[k], ctx, ts[k])
    ensures Held(s, CallValues(TokenText(e.name), ts, ctx))
  {
    var name, args := e.name, e.args;
    ts :| |ts| == |args| && Held(s, CallValues(TokenText(name), ts, ctx))
          && forall k :: 0 <= k < |args| ==> Result(args[k], ctx, ts[k]);
  }

  lemma BinaryParts(e: Expr, ctx: Context, s: set<Value>) returns (a: set<Value>, b: set<Value>)
    requires e.Binary? && Result(e, ctx, s)
    ensures Result(e.left, ctx, a) && Result(e.right, ctx, b) && Held(s, CombineAll(e.op, a, b))
  {
    a, b :| Result(e.left, ctx, a) && Result(e.right, ctx, b) && Held(s, CombineAll(e.op, a, b));
  }

  lemma LeafPart(e: Expr, ctx: Context, s: set<Value>)
    requires e.Leaf? && Result(e, ctx, s)
    ensures s <= LeafValues(e.token, ctx)
  {
  }

  lemma LiteralPart(e: Expr, v: Scalar, ctx: Context, s: set<Value>)
    requires e.Leaf? && Constant(e.token) == Some(v) && Result(e, ctx, s)
    ensures s <= {Known(v)}
  {
    LeafPart(e, ctx, s);
  }

  lemma OneOfTwo(e: Expr, ctx: Context, x: set<Value>) returns (a: Value)
    requires FlagOrOne(e, ctx) && Result(e, ctx, x)
    ensures (a == Known(Bool(true)) || a == Known(Num(1.0))) && x <= {a}
  {
    var p, q := BinaryParts(e, ctx, x);
    LeafPart(e.left, ctx, p);
    LiteralPart(e.right, Num(1.0), ctx, q);
    a := OneHeld(p, q, x);
  }

  lemma OneHeld(p: set<Value>, q: set<Value>, x: set<Value>) returns (a: Value)
    requires p <= {Known(Bool(true)), Known(Bool(false))} && q <= {Known(Num(1.0))} && Held(x, CombineAll(OrOp, p, q))
    ensures (a == Known(Bool(true)) || a == Known(Num(1.0))) && x <= {a}
  {
    forall r | r in x ensures r == Known(Bool(true)) || r == Known(Num(1.0)) {
      var u, v := CombineSource(OrOp, p, q, r);
      TrueOr(u, r);
    }
    assert Alike(Known(Bool(true)), Known(Num(1.0)));
    a := if Known(Bool(true)) in x then Known(Bool(true)) else Known(Num(1.0));
  }

  lemma CombineSource(op: Token, left: set<Value>, right: set<Value>, r: Value) returns (a: Value, b: Value)
    requires r in CombineAll(op, left, right)
    ensures a in left && b in right && r in Combine(op, a, b)
  {
    a, b :| a in left && b in right && r in Combine(op, a, b);
  }

  lemma TrueOr(a: Value, r: Value)
    requires a == Known(Bool(true)) || a == Known(Bool(false))
    requires r in Combine(OrOp, a, Known(Num(1.0)))
    ensures r == Known(Bool(true)) || r == Known(Num(1.0))
  {
  }

  lemma TestGrows(test: Test, x: set<Value>, a: set<Value>, y: set<Value>, b: set<Value>, ctx: Context)
    requires x <= a && y <= b
    ensures TestAll(test, x, y, ctx) <= TestAll(test, a, b, ctx)
  {
    forall r | r in TestAll(test, x, y, ctx) ensures r in TestAll(test, a, b, ctx) {
      var u, v :| u in x && v in y && r in TestValues(test, u, v, ctx);
      TestMember(test, a, b, u, v, r, ctx);
    }
  }

  lemma StartsEither(a: Value, s: set<Value>, ctx: Context)
    requires a == Known(Bool(true)) || a == Known(Num(1.0))
    requires s <= TestAll(StartsWith, {a}, {Known(Str("t"))}, ctx)
    ensures s <= {Known(Bool(true))} || s <= {Known(Bool(false))}
  {
    var only := Known(Bool(Passes(StartsWith, Lower(Text(a.v, ctx.number)), Lower("t"))));
    forall r | r in s ensures r == only {
      var u, v :| u in {a} && v in {Known(Str("t"))} && r in TestValues(StartsWith, u, v, ctx);
    }
  }

  lemma TestIsNoFormat(name: string)
    requires TestNamed(name).Some?
    ensures name != "format" && name != "always" && name != "fromJSON"
  {
    assert name[0] == 'c' || name[0] == 's' || name[0] == 'e';
  }

  lemma StartsValues(name: string, ts: seq<set<Value>>, ctx: Context)
    requires TestNamed(name) == Some(StartsWith) && |ts| == 2
    ensures CallValues(name, ts, ctx) == TestAll(StartsWith, ts[0], ts[1], ctx)
  {
    TestIsNoFormat(name);
  }

  lemma StartsActual(name: string, x: Scalar, y: Scalar, w: World)
    requires TestNamed(name) == Some(StartsWith)
    ensures ActualCall(name, [x, y], w)
         == Some(Bool(Passes(StartsWith, Lower(Text(x, w.number)), Lower(Text(y, w.number)))))
  {
    TestIsNoFormat(name);
  }

  lemma LostActual(e: Expr, ctx: Context, w: World, x: Scalar)
    requires StartsChoice(e, ctx)
    requires var f := w.vars(TokenText(e.args[0].left.token)); x == if Truthy(f) then f else Num(1.0)
    ensures Actual(e, w) == Some(Bool(Passes(StartsWith, Lower(Text(x, w.number)), Lower("t"))))
  {
    var choice, text := e.args[0], e.args[1];
    assert Actual(choice.left, w) == Some(w.vars(TokenText(choice.left.token)));
    assert Actual(choice.right, w) == Some(Num(1.0)) && Actual(text, w) == Some(Str("t"));
    OrActual(choice, w);
    assert e.args == [choice, text];
    ActualPair(e.name, choice, text, w);
    StartsActual(TokenText(e.name), x, Str("t"), w);
  }

  lemma OrActual(e: Expr, w: World)
    requires e.Binary? && e.op == OrOp && Actual(e.left, w).Some?
    ensures Actual(e, w) == if Truthy(Actual(e.left, w).value) then Actual(e.left, w) else Actual(e.right, w)
  {
  }

  lemma Starts()
    ensures !Passes(StartsWith, Lower("1"), Lower("t")) && Passes(StartsWith, Lower("true"), Lower("t"))
  {
    assert Lower("1")[0] == '1' && Lower("t") == "t" && Lower("true") == "true";
  }
}
