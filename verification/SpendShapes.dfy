/** The accepted selectors are exactly the chains of permitted alternatives, as an author would write them. */
module SpendShapes {
  import opened Wrappers
  import opened Scalars
  import opened Syntax
  import opened Meaning
  import opened Spend
  import V = ValueLaws

  // ---- parentheses of sensible trees -----------------------------------------------------

  predicate NeverBelow(p: seq<Token>) {
    forall k :: 0 <= k <= |p| ==> Balance(p[..k]) >= 0
  }

  /** Every parenthesis is closed, and none before it is opened. */
  predicate Nested(p: seq<Token>) {
    Balance(p) == 0 && NeverBelow(p)
  }

  lemma NestedConcat(a: seq<Token>, b: seq<Token>)
    requires Nested(a) && Nested(b)
    ensures Nested(a + b)
  {
    BalanceConcat(a, b);
    forall k | 0 <= k <= |a + b| ensures Balance((a + b)[..k]) >= 0 {
      if k <= |a| {
        assert (a + b)[..k] == a[..k];
      } else {
        assert (a + b)[..k] == a + b[..k - |a|];
        BalanceConcat(a, b[..k - |a|]);
      }
    }
  }

  lemma NestedOne(token: Token)
    requires Nesting(token) == 0
    ensures Nested([token])
  {
    BalanceOne(token);
    forall k | 0 <= k <= 1 ensures Balance([token][..k]) >= 0 {
      assert [token][..k] == if k == 0 then [] else [token];
    }
  }

  lemma Enclosed(p: seq<Token>, k: nat)
    requires Nested(p) && k <= |p|
    ensures Balance([Open] + p[..k]) >= 1 && Balance([Open] + p + [Close]) == 0
  {
    BalanceOne(Open);
    BalanceOne(Close);
    BalanceConcat([Open], p[..k]);
    BalanceConcat([Open], p);
    BalanceConcat([Open] + p, [Close]);
  }

  lemma NestedInside(p: seq<Token>)
    requires Nested(p)
    ensures Nested([Open] + p + [Close])
  {
    var q := [Open] + p + [Close];
    Enclosed(p, 0);
    forall k | 0 <= k <= |q| ensures Balance(q[..k]) >= 0 {
      if k == |q| {
        assert q[..k] == q;
      } else if k > 0 {
        Enclosed(p, k - 1);
        assert q[..k] == [Open] + p[..k - 1];
      }
    }
  }

  lemma {:induction false} SensibleNested(e: Expr)
    requires Sensible(e)
    ensures Nested(Print(e))
    decreases e, 0
  {
    match e
    case Leaf(token) => NestedOne(token);
    case Not(operand) =>
      SensibleNested(operand);
      NestedOne(Bang);
      NestedConcat([Bang], Print(operand));
    case Paren(inner) =>
      SensibleNested(inner);
      NestedInside(Print(inner));
    case Call(name, args) =>
      ArgumentsNested(e, args);
      CallNested(name, PrintArguments(args));
    case Binary(op, left, right) =>
      SensibleNested(left);
      SensibleNested(right);
      BothNested(Print(left), op, Print(right));
  }

  lemma CallNested(name: Token, inside: seq<Token>)
    requires name.Word? && Nested(inside)
    ensures Nested([name, Open] + inside + [Close])
  {
    NestedInside(inside);
    NestedOne(name);
    NestedConcat([name], [Open] + inside + [Close]);
    assert [name, Open] + inside + [Close] == [name] + ([Open] + inside + [Close]);
  }

  lemma BothNested(left: seq<Token>, op: Token, right: seq<Token>)
    requires Nested(left) && Nested(right) && Nesting(op) == 0
    ensures Nested(left + [op] + right)
  {
    NestedOne(op);
    NestedConcat(left, [op]);
    NestedConcat(left + [op], right);
  }

  lemma {:induction false} ArgumentsNested(e: Expr, args: seq<Expr>)
    requires forall k :: 0 <= k < |args| ==> args[k] < e && Sensible(args[k])
    ensures Nested(PrintArguments(args)) && Nested(PrintMore(args))
    decreases e, 0, |args|
  {
    if args == [] {
      var none: seq<Token> := [];
      assert none[..0] == none;
    } else {
      SensibleNested(args[0]);
      ArgumentsNested(e, args[1..]);
      NestedOne(Comma);
      NestedConcat(Print(args[0]), PrintMore(args[1..]));
      NestedConcat([Comma], Print(args[0]));
      NestedConcat([Comma] + Print(args[0]), PrintMore(args[1..]));
    }
  }

  lemma CallCloses(e: Expr)
    requires e.Call? && Sensible(e)
    ensures ClosesAtEnd(Print(e))
  {
    ArgumentsNested(e, e.args);
    EnclosedCloses(e.name, PrintArguments(e.args));
  }

  lemma EnclosedCloses(name: Token, inside: seq<Token>)
    requires Nested(inside)
    ensures ClosesAtEnd([name, Open] + inside + [Close])
  {
    var parts := [name, Open] + inside + [Close];
    forall k | 1 <= k < |parts| ensures Depth(parts, k) == 0 <==> k == |parts| - 1 {
      DepthIsBalance(parts, k);
      Behind(name, inside, k);
      if k == |parts| - 1 {
        Enclosed(inside, 0);
      } else {
        Enclosed(inside, k - 1);
      }
    }
  }

  lemma Behind(name: Token, inside: seq<Token>, k: nat)
    requires 1 <= k < |inside| + 3
    ensures var parts := [name, Open] + inside + [Close];
      parts[1..k + 1] == if k == |parts| - 1 then [Open] + inside + [Close] else [Open] + inside[..k - 1]
  {
  }

  // ---- every permitted chain is accepted -------------------------------------------------

  lemma FormatHeads(e: Expr)
    requires FormatTree(e)
    ensures FormatHead(Print(e))
  {
    var more := PrintMore(e.args[1..]);
    var parts := Print(e);
    assert Print(e.args[0]) == [e.args[0].token];
    assert PrintArguments(e.args) == [e.args[0].token] + more;
    assert parts == [e.name, Open] + ([e.args[0].token] + more) + [Close];
    assert parts == [e.name, Open, e.args[0].token] + more + [Close];
    assert |e.args| > 1 ==> more[0] == Comma;
  }

  /** What follows the hosted branch is accepted alone. */
  lemma TailAccepted(guard: Option<Token>, last: Expr)
    requires PoolTree(last) && (last.Call? ==> guard.None? && Sensible(last))
    requires guard.Some? ==> InputName(guard.value)
    ensures SelfHostedTokens(TailTokens(guard, last))
  {
    if last.Call? {
      FormatHeads(last);
      CallCloses(last);
    } else {
      assert Print(last) == [last.token];
      assert "startsWith"[0] != "format"[0];
    }
  }

  function TailTokens(guard: Option<Token>, last: Expr): seq<Token>
    requires PoolTree(last) && (last.Call? ==> guard.None?)
  {
    if guard.Some? then GuardedInput(guard.value, last.token) else Print(last)
  }

  /** A chain: a hosted branch, or none; a guarded input, or none; and the pool. */
  function Chain(hosted: Option<Alternative>, guard: Option<Token>): seq<Alternative> {
    (if hosted.Some? then [hosted.value] else []) + (if guard.Some? then [Guarded(guard.value)] else [])
  }

  ghost predicate Proper(hosted: Option<Alternative>, guard: Option<Token>, last: Expr) {
    && (hosted.Some? ==> hosted.value.Hosted? && Permitted(hosted.value))
    && (guard.Some? ==> InputName(guard.value))
    && PoolTree(last) && (last.Call? ==> guard.None? && Sensible(last))
  }

  lemma ChainTokens(hosted: Option<Alternative>, guard: Option<Token>, last: Expr)
    requires Proper(hosted, guard, last)
    ensures var head := if hosted.Some? then [hosted.value] else [];
      Print(Alternatives(Chain(hosted, guard), last)) == HeadTokens(head) + TailTokens(guard, last)
  {
    var some := Chain(hosted, guard);
    if guard.None? {
      if hosted.Some? {
        assert some == [hosted.value] && Joined(some) == AlternativeTree(hosted.value);
      } else {
        assert some == [];
      }
    } else {
      PrintGuard(guard.value);
      assert Print(last) == [last.token];
      assert GuardedInput(guard.value, last.token) == Print(GuardTree(guard.value)) + [OrOp] + [last.token];
      if hosted.Some? {
        TwoGuarded(hosted.value, guard.value);
        assert some == [hosted.value, Guarded(guard.value)];
      } else {
        assert some == [Guarded(guard.value)] && Joined(some) == GuardTree(guard.value);
      }
    }
  }

  /** Every text that reads as such a chain is accepted. */
  lemma ChainsAccepted(ts: seq<Token>, hosted: Option<Alternative>, guard: Option<Token>, last: Expr)
    requires Proper(hosted, guard, last) && ParseAll(ts) == Success(Alternatives(Chain(hosted, guard), last))
    ensures SafeSelector(Choose(Success(ts)))
  {
    GrammarExact(ts, Alternatives(Chain(hosted, guard), last));
    ChainTokens(hosted, guard, last);
    TailAccepted(guard, last);
    if hosted.Some? {
      HostedAccepted(ts, hosted.value, TailTokens(guard, last));
    } else {
      assert ts == TailTokens(guard, last);
    }
  }

  lemma HostedAccepted(ts: seq<Token>, hosted: Alternative, tail: seq<Token>)
    requires hosted.Hosted? && Permitted(hosted) && SelfHostedTokens(tail) && ts == HeadTokens([hosted]) + tail
    ensures HostedTokens(ts)
  {
    PrintHosted(hosted.asked);
    if hosted.asked.None? {
      assert ts == PUBLIC_ONLY + HOSTED + tail && ts[6..] == tail;
    } else {
      var head := PUBLIC_ONLY + HostedChoice(hosted.asked.value) + HOSTED;
      assert ts == head + tail && ts[10..] == tail && ts[4] == hosted.asked.value;
    }
  }

  // ---- labels and inputs, letter by letter -----------------------------------------------

  const SMALL := "abcdefghijklmnopqrstuvwxyz"
  const CAPITAL := "ABCDEFGHIJKLMNOPQRSTUVWXYZ"

  predicate AsciiLetter(c: char) {
    c in SMALL || c in CAPITAL
  }

  lemma SmallExact(c: char)
    ensures c in SMALL <==> 'a' <= c <= 'z'
  {
    assert forall k :: 0 <= k < 26 ==> SMALL[k] as int == 'a' as int + k;
    if 'a' <= c <= 'z' {
      assert SMALL[c as int - 'a' as int] == c;
    }
  }

  lemma CapitalExact(c: char)
    ensures c in CAPITAL <==> 'A' <= c <= 'Z'
  {
    assert forall k :: 0 <= k < 26 ==> CAPITAL[k] as int == 'A' as int + k;
    if 'A' <= c <= 'Z' {
      assert CAPITAL[c as int - 'A' as int] == c;
    }
  }

  lemma LetterExact(c: char)
    ensures AsciiLetter(c) <==> 'a' <= LowerChar(c) <= 'z'
  {
    SmallExact(c);
    CapitalExact(c);
  }

  predicate Sized(size: string) {
    size != "" && forall c :: c in size ==> AsciiLetter(c) || c in "0123456789" || c == '-'
  }

  /** A pool label is its prefix, in whatever case, and some letters, digits and hyphens. */
  lemma LabelExact(s: string)
    ensures PoolLabel(s) <==>
            exists prefix, size :: s == prefix + size && V.SameLetters(prefix, "sylphx-linux-") && Sized(size)
  {
    if PoolLabel(s) {
      var n := |POOL|;
      PoolIsLower();
      V.LowerSame(s[..n], POOL);
      forall c | c in s[n..] ensures AsciiLetter(c) || c in "0123456789" || c == '-' {
        var k :| 0 <= k < |s[n..]| && s[n..][k] == c;
        assert LabelChar(s[n + k]);
        LetterExact(c);
        V.DigitExact(c);
      }
      assert s == s[..n] + s[n..];
    }
    if prefix, size :| s == prefix + size && V.SameLetters(prefix, "sylphx-linux-") && Sized(size) {
      PoolIsLower();
      V.LowerSame(prefix, POOL);
      assert s[..|POOL|] == prefix;
      forall k | |POOL| <= k < |s| ensures LabelChar(s[k]) {
        assert s[k] == size[k - |POOL|];
        LetterExact(s[k]);
        V.DigitExact(s[k]);
      }
    }
  }

  predicate Named(name: string) {
    name != "" && forall c :: c in name ==>
      AsciiLetter(c) || c in "0123456789" || c == '_' || c == '-' || c as int >= 128
  }

  /** An input is `inputs.` and a name of letters, digits, underscores and hyphens. */
  lemma InputExact(token: Token)
    ensures InputName(token) <==> token.Word? && exists name :: token.text == "inputs." + name && Named(name)
  {
    if InputName(token) {
      var name := token.text[7..];
      assert token.text == "inputs." + name;
      forall c | c in name ensures AsciiLetter(c) || c in "0123456789" || c == '_' || c == '-' || c as int >= 128 {
        var k :| 0 <= k < |name| && name[k] == c;
        assert WordChar(token.text[7 + k]);
        LetterExact(c);
        V.DigitExact(c);
      }
    }
    if token.Word? {
      forall name | token.text == "inputs." + name && Named(name) ensures InputName(token) {
        forall k | 7 <= k < |token.text| ensures WordChar(token.text[k]) {
          assert token.text[k] == name[k - 7];
          LetterExact(token.text[k]);
          V.DigitExact(token.text[k]);
        }
      }
    }
  }

  /** A list is accepted exactly when it asks for `self-hosted` and holds nothing but texts without an interpolation. */
  lemma ListExact(items: seq<Option<string>>)
    ensures SafeSelector(Labels(items)) <==>
      Some("self-hosted") in items && forall item :: item in items ==> item.Some? && !Holds(item.value, "${{")
  {
    forall item | item in items && item.Some? ensures Interpolated(item.value) <==> Holds(item.value, "${{") {
      HoldsExact(item.value, "${{");
    }
  }

  lemma HoldsExact(s: string, part: string)
    ensures Passes(Contains, s, part) <==> Holds(s, part)
  {
    if before, after :| s == before + part + after {
      assert s[|before|..] == part + after;
    }
    if i :| 0 <= i <= |s| - |part| && part <= s[i..] {
      assert s == s[..i] + part + s[i + |part|..];
    }
  }

  ghost predicate Holds(s: string, part: string) {
    exists before, after :: s == before + part + after
  }
}
