/** Python's equality of JSON values, which takes a flag for the number 1 or 0. */
module Equality {
  import opened Wrappers
  import opened Rulesets
  import opened Rewrites

  /** Values are equal in Python exactly when these are the same. */
  function Norm(v: Value): Value {
    if v.Flag? then Num(if v.flag then 1 else 0) else v
  }

  function NormMap(m: map<string, Value>): map<string, Value> {
    map key | key in m :: Norm(m[key])
  }

  function NormOption(v: Option<Value>): Option<Value> {
    if v.Some? then Some(Norm(v.value)) else None
  }

  function NormQueue(queue: Option<map<string, Value>>): Option<map<string, Value>> {
    if queue.Some? then Some(NormMap(queue.value)) else None
  }

  function NormCheck(check: Check): Check {
    Check(check.context, NormMap(check.fields))
  }

  function NormChecks(checks: seq<Check>): (r: seq<Check>)
    ensures |r| == |checks| && forall i :: 0 <= i < |checks| ==> r[i] == NormCheck(checks[i])
  {
    seq(|checks|, i requires 0 <= i < |checks| => NormCheck(checks[i]))
  }

  function NormParams(params: Params): Params {
    Params(NormMap(params.values), if params.checks.Some? then Some(NormChecks(params.checks.value)) else None)
  }

  function NormRule(rule: Rule): Rule {
    Rule(rule.kind, NormMap(rule.extras), if rule.params.Some? then Some(NormParams(rule.params.value)) else None)
  }

  function NormRules(rules: seq<Rule>): (r: seq<Rule>)
    ensures |r| == |rules| && forall i :: 0 <= i < |rules| ==> r[i] == NormRule(rules[i])
  {
    seq(|rules|, i requires 0 <= i < |rules| => NormRule(rules[i]))
  }

  function NormRuleset(rs: Ruleset): Ruleset {
    Ruleset(rs.name, NormMap(rs.fields), NormRules(rs.rules))
  }

  predicate SameChecks(a: seq<Check>, b: seq<Check>) {
    NormChecks(a) == NormChecks(b)
  }

  predicate SameValues(a: map<string, Value>, b: map<string, Value>) {
    NormMap(a) == NormMap(b)
  }

  // ---- merging respects it ---------------------------------------------------------------

  lemma NormJoined(a: map<string, Value>, b: map<string, Value>)
    ensures NormMap(a + b) == NormMap(a) + NormMap(b)
  {
  }

  lemma NormRest(checks: seq<Check>)
    requires checks != []
    ensures NormChecks(checks)[1..] == NormChecks(checks[1..])
    ensures NormChecks(checks)[..|checks| - 1] == NormChecks(checks[..|checks| - 1])
  {
  }

  lemma NormConcat(a: seq<Check>, b: seq<Check>)
    ensures NormChecks(a + b) == NormChecks(a) + NormChecks(b)
  {
  }

  lemma NormContexts(checks: seq<Check>)
    ensures Contexts(NormChecks(checks)) == Contexts(checks)
  {
    forall context ensures context in Contexts(NormChecks(checks)) <==> context in Contexts(checks) {
      if i :| 0 <= i < |checks| && checks[i].context == context {
        assert NormChecks(checks)[i].context == context;
      }
    }
  }

  lemma {:induction false} NormBinding(desired: seq<Check>, context: string)
    ensures Binding(NormChecks(desired), context)
         == if Binding(desired, context).Some? then Some(NormCheck(Binding(desired, context).value)) else None
  {
    if desired != [] {
      NormRest(desired);
      NormBinding(desired[..|desired| - 1], context);
    }
  }

  lemma NormOverlaid(check: Check, desired: seq<Check>)
    ensures NormCheck(Overlaid(check, desired)) == Overlaid(NormCheck(check), NormChecks(desired))
  {
    NormBinding(desired, check.context);
    if Binding(desired, check.context).Some? {
      NormJoined(check.fields, Binding(desired, check.context).value.fields);
    }
  }

  lemma {:induction false} NormOthers(checks: seq<Check>, contexts: set<string>)
    ensures Others(NormChecks(checks), contexts) == NormChecks(Others(checks, contexts))
  {
    if checks != [] {
      NormRest(checks);
      NormOthers(checks[1..], contexts);
      NormConcat(if checks[0].context in contexts then [] else [checks[0]], Others(checks[1..], contexts));
    }
  }

  lemma {:induction false} NormKept(current: seq<Check>, desired: seq<Check>, present: set<string>)
    ensures Kept(NormChecks(current), NormChecks(desired), present) == NormChecks(Kept(current, desired, present))
  {
    if current != [] {
      var context := current[0].context;
      var first := if context in present && Binding(desired, context).Some? then []
          else [Overlaid(current[0], desired)];
      NormRest(current);
      NormKept(current[1..], desired, present + {context});
      NormBinding(desired, context);
      NormOverlaid(current[0], desired);
      NormConcat(first, Kept(current[1..], desired, present + {context}));
    }
  }

  /** Merging equal lists gives equal lists. */
  lemma NormMerge(current: seq<Check>, desired: seq<Check>)
    ensures NormChecks(Merge(current, desired)) == Merge(NormChecks(current), NormChecks(desired))
  {
    NormKept(current, desired, {});
    NormContexts(current);
    NormOthers(desired, Contexts(current));
    NormConcat(Kept(current, desired, {}), Lacking(desired, Contexts(current)));
  }

  // ---- what the plan sees ----------------------------------------------------------------

  lemma NormProject(check: Check)
    ensures Project(NormCheck(check)) == NormCheck(Project(check))
  {
  }

  lemma {:induction false} NormProjectAll(checks: seq<Check>)
    ensures ProjectAll(NormChecks(checks)) == NormChecks(ProjectAll(checks))
  {
    if checks != [] {
      NormRest(checks);
      NormProject(checks[0]);
      NormProjectAll(checks[1..]);
      NormConcat([Project(checks[0])], ProjectAll(checks[1..]));
    }
  }

  /** A declared check is settled up to equality. */
  predicate SettledAlike(checks: seq<Check>, b: Check) {
    Settled(NormChecks(checks), NormCheck(b))
  }

  lemma NormDistinct(desired: seq<Check>)
    requires Distinct(desired)
    ensures Distinct(NormChecks(desired))
  {
  }

  /** Merging gives an equal list exactly when every declared check is settled up to equality. */
  lemma MergeSame(current: seq<Check>, desired: seq<Check>)
    requires Distinct(desired)
    ensures SameChecks(current, Merge(current, desired)) <==>
            forall i :: 0 <= i < |desired| ==> SettledAlike(current, desired[i])
  {
    NormMerge(current, desired);
    NormDistinct(desired);
    MergeFixed(NormChecks(current), NormChecks(desired));
    var d := NormChecks(desired);
    assert forall i :: 0 <= i < |desired| ==> (SettledAlike(current, desired[i]) <==>
        Settled(NormChecks(current), d[i]));
  }

  lemma NormDeclared(desired: seq<Check>)
    requires Declared(desired)
    ensures Declared(NormChecks(desired))
    ensures forall i :: 0 <= i < |desired| ==> (Plain(NormChecks(desired)[i]) <==> Plain(desired[i]))
  {
    forall i | 0 <= i < |desired| ensures NormChecks(desired)[i].fields.Keys == desired[i].fields.Keys {
      assert NormMap(desired[i].fields).Keys == desired[i].fields.Keys;
    }
  }

  /** The rewritten checks, read back, show the plan no drift exactly when every declaration is plain. */
  lemma ReplanSame(current: seq<Check>, desired: seq<Check>)
    requires Declared(desired)
    ensures var read := ProjectAll(Merge(current, desired));
      SameChecks(read, Merge(read, desired)) <==> forall i :: 0 <= i < |desired| ==> Plain(desired[i])
  {
    NormDeclared(desired);
    ReplanExact(NormChecks(current), NormChecks(desired));
    NormMerge(current, desired);
    NormProjectAll(Merge(current, desired));
    NormMerge(ProjectAll(Merge(current, desired)), desired);
  }

  lemma {:induction false} NormFirst(rules: seq<Rule>, kind: string)
    ensures First(NormRules(rules), kind)
         == if First(rules, kind).Some? then Some(NormRule(First(rules, kind).value)) else None
  {
    if rules != [] {
      assert NormRules(rules)[1..] == NormRules(rules[1..]);
      NormFirst(rules[1..], kind);
    }
  }
}
