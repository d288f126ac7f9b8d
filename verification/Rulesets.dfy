/** Rulesets as GitHub stores them, and the merge of declared required checks into the current ones. */
module Rulesets {
  import opened Wrappers

  /** A JSON value; arrays and objects that nothing here looks into stay encoded. */
  datatype Value = Null | Flag(flag: bool) | Num(num: int) | Text(text: string) | Encoded(json: string)

  /** A required check: its context, and its other fields. */
  datatype Check = Check(context: string, fields: map<string, Value>)

  /** The parameters of a rule; the list of required checks is kept apart. */
  datatype Params = Params(values: map<string, Value>, checks: Option<seq<Check>>)

  datatype Rule = Rule(kind: string, extras: map<string, Value>, params: Option<Params>)

  datatype Ruleset = Ruleset(name: string, fields: map<string, Value>, rules: seq<Rule>)

  const INTEGRATION := "integration_id"

  // ---- lists of checks -------------------------------------------------------------------

  function Contexts(checks: seq<Check>): set<string> {
    set i | 0 <= i < |checks| :: checks[i].context
  }

  predicate Distinct(checks: seq<Check>) {
    forall i, j :: 0 <= i < j < |checks| ==> checks[i].context != checks[j].context
  }

  /** The checks of one context, in order. */
  function AtContext(checks: seq<Check>, context: string): seq<Check> {
    if checks == [] then []
    else (if checks[0].context == context then [checks[0]] else []) + AtContext(checks[1..], context)
  }

  /** The checks whose context is not among these, in order. */
  function Others(checks: seq<Check>, contexts: set<string>): seq<Check> {
    if checks == [] then []
    else (if checks[0].context in contexts then [] else [checks[0]]) + Others(checks[1..], contexts)
  }

  lemma Assoc(x: seq<Check>, y: seq<Check>, z: seq<Check>)
    ensures x + (y + z) == x + y + z
  {
  }

  lemma {:induction false} AtContextJoins(a: seq<Check>, b: seq<Check>, context: string)
    ensures AtContext(a + b, context) == AtContext(a, context) + AtContext(b, context)
  {
    if a == [] {
      assert a + b == b;
    } else {
      AtContextJoins(a[1..], b, context);
      assert (a + b)[1..] == a[1..] + b && (a + b)[0] == a[0];
      var first := if a[0].context == context then [a[0]] else [];
      Assoc(first, AtContext(a[1..], context), AtContext(b, context));
    }
  }

  lemma {:induction false} OthersJoins(a: seq<Check>, b: seq<Check>, contexts: set<string>)
    ensures Others(a + b, contexts) == Others(a, contexts) + Others(b, contexts)
  {
    if a == [] {
      assert a + b == b;
    } else {
      OthersJoins(a[1..], b, contexts);
      assert (a + b)[1..] == a[1..] + b && (a + b)[0] == a[0];
      var first := if a[0].context in contexts then [] else [a[0]];
      Assoc(first, Others(a[1..], contexts), Others(b, contexts));
    }
  }

  lemma {:induction false} AtContextEmpty(checks: seq<Check>, context: string)
    ensures AtContext(checks, context) == [] <==> context !in Contexts(checks)
  {
    if checks != [] {
      AtContextEmpty(checks[1..], context);
      ContextsSplit(checks);
    }
  }

  lemma ContextsSplit(checks: seq<Check>)
    requires checks != []
    ensures Contexts(checks) == {checks[0].context} + Contexts(checks[1..])
  {
    forall context ensures context in Contexts(checks) <==> context in {checks[0].context} + Contexts(checks[1..]) {
      if i :| 0 <= i < |checks| && checks[i].context == context {
        assert i > 0 ==> checks[1..][i - 1].context == context;
      }
      if i :| 0 <= i < |checks[1..]| && checks[1..][i].context == context {
        assert checks[i + 1].context == context;
      }
    }
  }

  // ---- merging ---------------------------------------------------------------------------

  /** The last declaration of a context. */
  function Binding(desired: seq<Check>, context: string): Option<Check> {
    if desired == [] then None
    else
      var last := desired[|desired| - 1];
      if last.context == context then Some(last) else Binding(desired[..|desired| - 1], context)
  }

  function Overlaid(check: Check, desired: seq<Check>): Check {
    match Binding(desired, check.context)
    case Some(b) => Check(check.context, check.fields + b.fields)
    case None => check
  }

  /** The current checks with their declared fields, without repetitions of a declared context. */
  function Kept(current: seq<Check>, desired: seq<Check>, present: set<string>): seq<Check> {
    if current == [] then []
    else
      var context := current[0].context;
      (if context in present && Binding(desired, context).Some? then [] else [Overlaid(current[0], desired)])
      + Kept(current[1..], desired, present + {context})
  }

  /** The declared checks whose context the current list lacks. */
  function Lacking(desired: seq<Check>, present: set<string>): seq<Check> {
    Others(desired, present)
  }

  function Merge(current: seq<Check>, desired: seq<Check>): seq<Check> {
    Kept(current, desired, {}) + Lacking(desired, Contexts(current))
  }

  lemma {:induction false} KeptGrows(current: seq<Check>, check: Check, desired: seq<Check>, present: set<string>)
    ensures Kept(current + [check], desired, present)
         == Kept(current, desired, present)
            + (if check.context in present + Contexts(current) && Binding(desired, check.context).Some? then []
               else [Overlaid(check, desired)])
  {
    var more := current + [check];
    if current == [] {
      assert more[1..] == [];
    } else {
      KeptGrows(current[1..], check, desired, present + {current[0].context});
      assert more[1..] == current[1..] + [check];
      ContextsSplit(current);
      assert present + {current[0].context} + Contexts(current[1..]) == present + Contexts(current);
    }
  }

  lemma ContextsGrow(checks: seq<Check>, check: Check)
    ensures Contexts(checks + [check]) == Contexts(checks) + {check.context}
  {
    var more := checks + [check];
    forall context ensures context in Contexts(more) <==> context in Contexts(checks) + {check.context} {
      if i :| 0 <= i < |checks| && checks[i].context == context {
        assert more[i].context == context;
      }
      assert more[|checks|] == check;
    }
  }

  method MergeChecks(current: seq<Check>, desired: seq<Check>) returns (out: seq<Check>)
    ensures out == Merge(current, desired)
  {
    out := [];
    var present: set<string> := {};
    for i := 0 to |current|
      invariant present == Contexts(current[..i])
      invariant out == Kept(current[..i], desired, {})
    {
      var check := current[i];
      assert current[..i + 1] == current[..i] + [check];
      KeptGrows(current[..i], check, desired, {});
      ContextsGrow(current[..i], check);
      if !(Binding(desired, check.context).Some? && check.context in present) {
        out := out + [Overlaid(check, desired)];
      }
      present := present + {check.context};
    }
    assert current[..|current|] == current;
    ghost var kept := out;
    for i := 0 to |desired|
      invariant out == kept + Lacking(desired[..i], present)
    {
      assert desired[..i + 1] == desired[..i] + [desired[i]];
      OthersJoins(desired[..i], [desired[i]], present);
      if desired[i].context !in present {
        out := out + [desired[i]];
      }
    }
    assert desired[..|desired|] == desired;
  }

  // ---- what merging does -----------------------------------------------------------------

  lemma {:induction false} BindingKnown(desired: seq<Check>, context: string)
    ensures Binding(desired, context).Some? <==> context in Contexts(desired)
    ensures Binding(desired, context).Some? ==> Binding(desired, context).value.context == context
  {
    if desired != [] {
      var rest, last := desired[..|desired| - 1], desired[|desired| - 1];
      BindingKnown(rest, context);
      assert desired == rest + [last];
      ContextsGrow(rest, last);
    }
  }

  lemma {:induction false} OthersOfKept(current: seq<Check>, desired: seq<Check>, present: set<string>)
    ensures Others(Kept(current, desired, present), Contexts(desired)) == Others(current, Contexts(desired))
  {
    if current != [] {
      var check := current[0];
      var first := if check.context in present && Binding(desired, check.context).Some? then []
          else [Overlaid(check, desired)];
      OthersOfKept(current[1..], desired, present + {check.context});
      OthersJoins(first, Kept(current[1..], desired, present + {check.context}), Contexts(desired));
      BindingKnown(desired, check.context);
    }
  }

  lemma {:induction false} OthersOfLacking(some: seq<Check>, present: set<string>, contexts: set<string>)
    requires Contexts(some) <= contexts
    ensures Others(Lacking(some, present), contexts) == []
  {
    if some != [] {
      ContextsSplit(some);
      OthersOfLacking(some[1..], present, contexts);
      var first := if some[0].context in present then [] else [some[0]];
      OthersJoins(first, Lacking(some[1..], present), contexts);
    }
  }

  /** Undeclared checks stay as they are, in order and number. */
  lemma UndeclaredUnchanged(current: seq<Check>, desired: seq<Check>)
    ensures Others(Merge(current, desired), Contexts(desired)) == Others(current, Contexts(desired))
  {
    OthersOfKept(current, desired, {});
    OthersOfLacking(desired, Contexts(current), Contexts(desired));
    OthersJoins(Kept(current, desired, {}), Lacking(desired, Contexts(current)), Contexts(desired));
  }

  lemma {:induction false} KeptAt(current: seq<Check>, desired: seq<Check>, present: set<string>, context: string)
    requires context in Contexts(desired)
    ensures AtContext(Kept(current, desired, present), context)
         == if context in present || AtContext(current, context) == [] then []
            else [Overlaid(AtContext(current, context)[0], desired)]
  {
    if current != [] {
      var check := current[0];
      var first := if check.context in present && Binding(desired, check.context).Some? then []
          else [Overlaid(check, desired)];
      BindingKnown(desired, context);
      KeptAt(current[1..], desired, present + {check.context}, context);
      AtContextJoins(first, Kept(current[1..], desired, present + {check.context}), context);
    }
  }

  lemma {:induction false} LackingAt(desired: seq<Check>, present: set<string>, context: string)
    ensures AtContext(Lacking(desired, present), context) == if context in present then []
        else AtContext(desired, context)
  {
    if desired != [] {
      LackingAt(desired[1..], present, context);
      var first := if desired[0].context in present then [] else [desired[0]];
      AtContextJoins(first, Lacking(desired[1..], present), context);
    }
  }

  lemma {:induction false} DistinctAt(desired: seq<Check>, i: nat)
    requires Distinct(desired) && i < |desired|
    ensures AtContext(desired, desired[i].context) == [desired[i]]
    ensures Binding(desired, desired[i].context) == Some(desired[i])
    decreases |desired|
  {
    DistinctBinding(desired, i);
    if i == 0 {
      AtContextEmpty(desired[1..], desired[0].context);
    } else {
      DistinctAt(desired[1..], i - 1);
    }
  }

  lemma {:induction false} DistinctBinding(desired: seq<Check>, i: nat)
    requires Distinct(desired) && i < |desired|
    ensures Binding(desired, desired[i].context) == Some(desired[i])
    decreases |desired|
  {
    if i < |desired| - 1 {
      DistinctBinding(desired[..|desired| - 1], i);
    }
  }

  /** Each declared context ends with exactly one check: the first current one with the declared fields, or the
      declaration itself. */
  lemma DeclaredOnce(current: seq<Check>, desired: seq<Check>, i: nat)
    requires Distinct(desired) && i < |desired|
    ensures var b := desired[i]; var first := AtContext(current, b.context);
      AtContext(Merge(current, desired), b.context)
      == [if first == [] then b else Check(b.context, first[0].fields + b.fields)]
  {
    var b := desired[i];
    var first := AtContext(current, b.context);
    assert b.context in Contexts(desired);
    KeptAt(current, desired, {}, b.context);
    LackingAt(desired, Contexts(current), b.context);
    AtContextJoins(Kept(current, desired, {}), Lacking(desired, Contexts(current)), b.context);
    AtContextEmpty(current, b.context);
    DistinctAt(desired, i);
    if first != [] {
      AtContextHas(current, b.context, 0);
    }
  }

  lemma {:induction false} AtContextHas(checks: seq<Check>, context: string, i: nat)
    requires i < |AtContext(checks, context)|
    ensures AtContext(checks, context)[i].context == context && AtContext(checks, context)[i] in checks
  {
    if checks[0].context != context {
      AtContextHas(checks[1..], context, i);
    } else if i > 0 {
      AtContextHas(checks[1..], context, i - 1);
    }
  }

  /** The declared fields are there. */
  predicate Holds(check: Check, b: Check) {
    forall key :: key in b.fields ==> key in check.fields && check.fields[key] == b.fields[key]
  }

  /** One check of the declared context, with the declared fields. */
  predicate Settled(checks: seq<Check>, b: Check) {
    |AtContext(checks, b.context)| == 1 && Holds(AtContext(checks, b.context)[0], b)
  }

  lemma {:induction false} KeptFixed(current: seq<Check>, desired: seq<Check>, present: set<string>)
    requires forall i :: 0 <= i < |current| && current[i].context in Contexts(desired) ==>
               && current[i].context !in present && |AtContext(current, current[i].context)| == 1
               && Overlaid(current[i], desired) == current[i]
    ensures Kept(current, desired, present) == current
  {
    if current != [] {
      var check := current[0];
      BindingKnown(desired, check.context);
      var rest := current[1..];
      forall i | 0 <= i < |rest| && rest[i].context in Contexts(desired)
        ensures rest[i].context !in present + {check.context} && |AtContext(rest, rest[i].context)| == 1
        ensures Overlaid(rest[i], desired) == rest[i]
      {
        assert rest[i] == current[i + 1];
        AtContextEmpty(rest, rest[i].context);
      }
      KeptFixed(rest, desired, present + {check.context});
    }
  }

  lemma {:induction false} OnlyAt(checks: seq<Check>, i: nat)
    requires i < |checks| && |AtContext(checks, checks[i].context)| == 1
    ensures AtContext(checks, checks[i].context)[0] == checks[i]
  {
    if i == 0 {
    } else {
      AtContextEmpty(checks[1..], checks[i].context);
      assert checks[1..][i - 1] == checks[i];
      OnlyAt(checks[1..], i - 1);
    }
  }

  lemma {:induction false} NoneLacking(some: seq<Check>, present: set<string>)
    ensures Lacking(some, present) == [] <==> Contexts(some) <= present
  {
    if some != [] {
      ContextsSplit(some);
      NoneLacking(some[1..], present);
    }
  }

  /** Merging changes nothing exactly when every declared check is settled. */
  lemma MergeFixed(current: seq<Check>, desired: seq<Check>)
    requires Distinct(desired)
    ensures Merge(current, desired) == current <==> forall i :: 0 <= i < |desired| ==> Settled(current, desired[i])
  {
    if Merge(current, desired) == current {
      forall i | 0 <= i < |desired| ensures Settled(current, desired[i]) {
        DeclaredOnce(current, desired, i);
      }
    }
    if forall i :: 0 <= i < |desired| ==> Settled(current, desired[i]) {
      forall i | 0 <= i < |current| && current[i].context in Contexts(desired)
        ensures |AtContext(current, current[i].context)| == 1 && Overlaid(current[i], desired) == current[i]
      {
        var k :| 0 <= k < |desired| && desired[k].context == current[i].context;
        assert Settled(current, desired[k]);
        OnlyAt(current, i);
        DistinctAt(desired, k);
        assert current[i].fields + desired[k].fields == current[i].fields;
      }
      KeptFixed(current, desired, {});
      forall context | context in Contexts(desired) ensures context in Contexts(current) {
        var k :| 0 <= k < |desired| && desired[k].context == context;
        assert Settled(current, desired[k]);
        AtContextEmpty(current, context);
      }
      NoneLacking(desired, Contexts(current));
    }
  }

  lemma MergeSettles(current: seq<Check>, desired: seq<Check>, i: nat)
    requires Distinct(desired) && i < |desired|
    ensures Settled(Merge(current, desired), desired[i])
  {
    DeclaredOnce(current, desired, i);
  }

  lemma MergeIdempotent(current: seq<Check>, desired: seq<Check>)
    requires Distinct(desired)
    ensures Merge(Merge(current, desired), desired) == Merge(current, desired)
  {
    forall i | 0 <= i < |desired| ensures Settled(Merge(current, desired), desired[i]) {
      MergeSettles(current, desired, i);
    }
    MergeFixed(Merge(current, desired), desired);
  }

  // ---- what the plan sees ----------------------------------------------------------------

  /** A check as the plan reads it: the context and the integration only. */
  function Project(check: Check): Check {
    Check(check.context, map[INTEGRATION := if INTEGRATION in check.fields then check.fields[INTEGRATION] else Null])
  }

  function ProjectAll(checks: seq<Check>): seq<Check> {
    if checks == [] then [] else [Project(checks[0])] + ProjectAll(checks[1..])
  }

  lemma {:induction false} ProjectAt(checks: seq<Check>, context: string)
    ensures AtContext(ProjectAll(checks), context) == ProjectAll(AtContext(checks, context))
  {
    if checks != [] {
      ProjectAt(checks[1..], context);
      assert ProjectAll(checks)[1..] == ProjectAll(checks[1..]);
      var rest := AtContext(checks[1..], context);
      if checks[0].context == context {
        assert AtContext(checks, context) == [checks[0]] + rest && ([checks[0]] + rest)[1..] == rest;
      } else {
        assert AtContext(checks, context) == rest;
      }
    }
  }

  /** A validated declaration: one per context, each with its integration. */
  predicate Declared(desired: seq<Check>) {
    Distinct(desired) && forall i :: 0 <= i < |desired| ==> INTEGRATION in desired[i].fields
  }

  /** A declaration names nothing but the context and the integration. */
  predicate Plain(b: Check) {
    b.fields.Keys == {INTEGRATION}
  }

  /** The rewritten checks, read back, show the plan no drift exactly when every declaration is plain: any other
      declared field is never read back, and drifts for ever. */
  lemma ReplanExact(current: seq<Check>, desired: seq<Check>)
    requires Declared(desired)
    ensures var read := ProjectAll(Merge(current, desired));
      Merge(read, desired) == read <==> forall i :: 0 <= i < |desired| ==> Plain(desired[i])
  {
    var read := ProjectAll(Merge(current, desired));
    forall i | 0 <= i < |desired| ensures Settled(read, desired[i]) <==> Plain(desired[i]) {
      var b := desired[i];
      DeclaredOnce(current, desired, i);
      ProjectAt(Merge(current, desired), b.context);
      var one := AtContext(Merge(current, desired), b.context)[0];
      assert AtContext(read, b.context) == [Project(one)];
      assert one.fields[INTEGRATION] == b.fields[INTEGRATION];
      if Plain(b) {
        assert Holds(Project(one), b);
      }
      if Settled(read, b) {
        assert b.fields.Keys <= {INTEGRATION};
      }
    }
    MergeFixed(read, desired);
  }
}
