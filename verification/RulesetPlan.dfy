/** The plan: what drifts from the policy, what a write puts there, and why planning again finds nothing. */
module RulesetPlan {
  import opened Wrappers
  import opened Rulesets
  import opened Rewrites
  import opened Equality

  // ---- policy ----------------------------------------------------------------------------

  datatype Override = Override(repos: set<string>, ruleset: string, settings: map<string, Value>)

  /** Declared checks of one ruleset, under every name its repository goes by. */
  datatype Target = Target(repos: set<string>, id: nat, ruleset: string, checks: seq<Check>)

  datatype Policy = Policy(
    settings: map<string, Value>, overrides: seq<Override>,
    count: Value, extra: bool, strict: bool, targets: seq<Target>)

  /** What loading a policy checks. */
  predicate ValidPolicy(p: Policy) {
    && p.settings.Keys == PARAMS && !p.strict
    && (forall i :: 0 <= i < |p.overrides| ==> p.overrides[i].settings.Keys <= PARAMS)
    && (forall i :: 0 <= i < |p.targets| ==> p.targets[i].checks != [] && ValidChecks(p.targets[i].checks))
  }

  predicate ValidChecks(checks: seq<Check>) {
    Declared(checks) && forall i :: 0 <= i < |checks| ==> Positive(checks[i])
  }

  predicate Positive(check: Check) {
    INTEGRATION in check.fields && check.fields[INTEGRATION].Num? && check.fields[INTEGRATION].num > 0
  }

  /** A ruleset of a repository. */
  datatype Subject = Subject(repo: string, id: nat)

  function Settings(overrides: seq<Override>, base: map<string, Value>, repo: string,
                    ruleset: string): map<string, Value> {
    if overrides == [] then base
    else
      var last := overrides[|overrides| - 1];
      var before := Settings(overrides[..|overrides| - 1], base, repo, ruleset);
      if repo in last.repos && last.ruleset == ruleset then before + last.settings else before
  }

  function DesiredSettings(p: Policy, repo: string, ruleset: string): map<string, Value> {
    Settings(p.overrides, p.settings, repo, ruleset)
  }

  lemma {:induction false} SettingsKeys(overrides: seq<Override>, base: map<string, Value>, repo: string,
                                        ruleset: string)
    requires base.Keys == PARAMS && forall i :: 0 <= i < |overrides| ==> overrides[i].settings.Keys <= PARAMS
    ensures Settings(overrides, base, repo, ruleset).Keys == PARAMS
  {
    if overrides != [] {
      SettingsKeys(overrides[..|overrides| - 1], base, repo, ruleset);
    }
  }

  /** This override sets this key for the ruleset of this name in this repository. */
  ghost predicate Overrides(o: Override, repo: string, ruleset: string, key: string) {
    repo in o.repos && o.ruleset == ruleset && key in o.settings
  }

  ghost predicate LastOverrides(overrides: seq<Override>, repo: string, ruleset: string, key: string, i: nat) {
    && i < |overrides| && Overrides(overrides[i], repo, ruleset, key)
    && forall j :: i < j < |overrides| ==> !Overrides(overrides[j], repo, ruleset, key)
  }

  ghost predicate Overridden(overrides: seq<Override>, repo: string, ruleset: string, key: string) {
    exists i :: 0 <= i < |overrides| && Overrides(overrides[i], repo, ruleset, key)
  }

  /** The value that the policy wants for a key: that of the last override for this repository and this name that sets
      the key, and without one the general value. */
  ghost predicate Wants(p: Policy, repo: string, ruleset: string, key: string, v: Value) {
    if Overridden(p.overrides, repo, ruleset, key) then
      exists i: nat :: LastOverrides(p.overrides, repo, ruleset, key, i) && v == p.overrides[i].settings[key]
    else key in p.settings && v == p.settings[key]
  }

  lemma {:induction false} SettingsExact(p: Policy, repo: string, ruleset: string, key: string, v: Value)
    ensures key in DesiredSettings(p, repo, ruleset) && DesiredSettings(p, repo, ruleset)[key] == v <==>
            Wants(p, repo, ruleset, key, v)
    decreases |p.overrides|
  {
    if p.overrides != [] {
      var n := |p.overrides| - 1;
      var q := p.(overrides := p.overrides[..n]);
      SettingsExact(q, repo, ruleset, key, v);
      WantsGrows(p, q, repo, ruleset, key, v);
    }
  }

  lemma WantsGrows(p: Policy, q: Policy, repo: string, ruleset: string, key: string, v: Value)
    requires p.overrides != [] && q == p.(overrides := p.overrides[..|p.overrides| - 1])
    ensures var last := p.overrides[|p.overrides| - 1];
      Wants(p, repo, ruleset, key, v) <==>
      if Overrides(last, repo, ruleset, key) then v == last.settings[key] else Wants(q, repo, ruleset, key, v)
  {
    var n := |p.overrides| - 1;
    if Overrides(p.overrides[n], repo, ruleset, key) {
      assert LastOverrides(p.overrides, repo, ruleset, key, n);
      forall i | LastOverrides(p.overrides, repo, ruleset, key, i) ensures i == n {
      }
    } else {
      assert forall i :: 0 <= i < n ==> q.overrides[i] == p.overrides[i];
      forall i: nat ensures LastOverrides(p.overrides, repo, ruleset, key, i) <==>
          LastOverrides(q.overrides, repo, ruleset, key, i)
      {
      }
      assert Overridden(p.overrides, repo, ruleset, key) <==> Overridden(q.overrides, repo, ruleset, key);
    }
  }

  /** The loop over the overrides. */
  method FindSettings(p: Policy, repo: string, ruleset: string) returns (settings: map<string, Value>)
    ensures settings == DesiredSettings(p, repo, ruleset)
    ensures forall key, v :: key in settings && settings[key] == v <==> Wants(p, repo, ruleset, key, v)
  {
    settings := p.settings;
    for i := 0 to |p.overrides|
      invariant settings == Settings(p.overrides[..i], p.settings, repo, ruleset)
    {
      assert p.overrides[..i + 1][..i] == p.overrides[..i];
      if repo in p.overrides[i].repos && p.overrides[i].ruleset == ruleset {
        settings := settings + p.overrides[i].settings;
      }
    }
    assert p.overrides[..|p.overrides|] == p.overrides;
    forall key, v ensures key in settings && settings[key] == v <==> Wants(p, repo, ruleset, key, v) {
      SettingsExact(p, repo, ruleset, key, v);
    }
  }

  const RENAMED := "name differs from policy"

  /** The declared checks, or only those of one context. */
  function DesiredChecks(targets: seq<Target>, s: Subject, name: string,
                         only: Option<string>): Result<seq<Check>, string> {
    if targets == [] then Success([])
    else if s.repo in targets[0].repos && targets[0].id == s.id then
      if targets[0].ruleset != name then Failure(RENAMED)
      else Success(if only.Some? then AtContext(targets[0].checks, only.value) else targets[0].checks)
    else DesiredChecks(targets[1..], s, name, only)
  }

  ghost predicate IsFor(t: Target, s: Subject) {
    s.repo in t.repos && t.id == s.id
  }

  ghost predicate FirstFor(targets: seq<Target>, s: Subject, i: nat) {
    i < |targets| && IsFor(targets[i], s) && forall j :: 0 <= j < i ==> !IsFor(targets[j], s)
  }

  ghost predicate NoneFor(targets: seq<Target>, s: Subject) {
    forall i :: 0 <= i < |targets| ==> !IsFor(targets[i], s)
  }

  /** The checks that the policy declares are those of the first target with this repository and id, or those of one
      context among them; and it refuses a ruleset of another name. */
  lemma {:induction false} ChecksExact(targets: seq<Target>, s: Subject, name: string, only: Option<string>)
    ensures NoneFor(targets, s) ==> DesiredChecks(targets, s, name, only) == Success([])
    ensures forall i: nat :: FirstFor(targets, s, i) ==>
              DesiredChecks(targets, s, name, only)
              == if targets[i].ruleset != name then Failure(RENAMED)
                 else Success(if only.Some? then AtContext(targets[i].checks, only.value) else targets[i].checks)
    ensures NoneFor(targets, s) || exists i: nat :: FirstFor(targets, s, i)
  {
    if targets != [] {
      ChecksExact(targets[1..], s, name, only);
      if IsFor(targets[0], s) {
        assert FirstFor(targets, s, 0);
      } else {
        forall i: nat ensures FirstFor(targets, s, i) <==> i > 0 && FirstFor(targets[1..], s, i - 1) {
          FirstLater(targets, s, i);
        }
        assert NoneFor(targets, s) <==> NoneFor(targets[1..], s);
        if i: nat :| FirstFor(targets[1..], s, i) {
          assert FirstFor(targets, s, i + 1);
        }
      }
    }
  }

  lemma FirstLater(targets: seq<Target>, s: Subject, i: nat)
    requires targets != [] && !IsFor(targets[0], s)
    ensures FirstFor(targets, s, i) <==> i > 0 && FirstFor(targets[1..], s, i - 1)
  {
    var rest := targets[1..];
    if FirstFor(targets, s, i) {
      assert rest[i - 1] == targets[i];
      forall j | 0 <= j < i - 1 ensures !IsFor(rest[j], s) {
        assert !IsFor(targets[j + 1], s);
      }
    }
    if i > 0 && FirstFor(rest, s, i - 1) {
      forall j | 0 <= j < i ensures !IsFor(targets[j], s) {
        assert j > 0 ==> !IsFor(rest[j - 1], s);
      }
    }
  }

  /** Of a list that declares no context twice, one context has its one check or none. */
  lemma OneContext(checks: seq<Check>, context: string, b: Check)
    requires Distinct(checks)
    ensures b in AtContext(checks, context) <==> b in checks && b.context == context
    ensures |AtContext(checks, context)| <= 1
  {
    if context in Contexts(checks) {
      var i :| 0 <= i < |checks| && checks[i].context == context;
      DistinctAt(checks, i);
    } else {
      AtContextEmpty(checks, context);
    }
  }

  /** The loop over the targets. */
  method FindChecks(targets: seq<Target>, s: Subject, name: string, only: Option<string>)
    returns (checks: Result<seq<Check>, string>)
    ensures checks == DesiredChecks(targets, s, name, only)
  {
    for i := 0 to |targets|
      invariant DesiredChecks(targets, s, name, only) == DesiredChecks(targets[i..], s, name, only)
    {
      if s.repo in targets[i].repos && targets[i].id == s.id {
        if targets[i].ruleset != name {
          return Failure(RENAMED);
        }
        return Success(if only.Some? then AtContext(targets[i].checks, only.value) else targets[i].checks);
      }
      assert targets[i..][1..] == targets[i + 1..];
    }
    return Success([]);
  }

  lemma {:induction false} DesiredValid(targets: seq<Target>, s: Subject, name: string, only: Option<string>)
    requires forall i :: 0 <= i < |targets| ==> ValidChecks(targets[i].checks)
    ensures DesiredChecks(targets, s, name, only).Success? ==> ValidChecks(DesiredChecks(targets, s, name, only).value)
  {
    if targets != [] {
      DesiredValid(targets[1..], s, name, only);
      if only.Some? {
        AtContextValid(targets[0].checks, only.value);
      }
    }
  }

  lemma {:induction false} AtContextValid(checks: seq<Check>, context: string)
    requires ValidChecks(checks)
    ensures ValidChecks(AtContext(checks, context))
  {
    if context in Contexts(checks) {
      var i :| 0 <= i < |checks| && checks[i].context == context;
      DistinctAt(checks, i);
    } else {
      AtContextEmpty(checks, context);
    }
  }

  // ---- reading ---------------------------------------------------------------------------

  function Truthy(v: Value): bool {
    match v
    case Null => false
    case Flag(b) => b
    case Num(n) => n != 0
    case Text(t) => t != ""
    case Encoded(json) => json != "[]" && json != "{}"
  }

  /** What Python takes for false: null, false, zero, and empty texts and collections. */
  lemma FalsyExact(v: Value)
    ensures !Truthy(v) <==> v in [Null, Flag(false), Num(0), Text(""), Encoded("[]"), Encoded("{}")]
  {
    var falsy := [Null, Flag(false), Num(0), Text(""), Encoded("[]"), Encoded("{}")];
    assert falsy[0] in falsy && falsy[1] in falsy && falsy[2] in falsy && falsy[3] in falsy && falsy[4] in falsy;
    assert falsy[5] in falsy;
  }

  function Lookup(values: map<string, Value>, key: string, otherwise: Value): Value {
    if key in values then values[key] else otherwise
  }

  /** The parameters of the first queue; reading fails when one is absent. */
  function QueueParams(rules: seq<Rule>): Result<Option<map<string, Value>>, string> {
    match First(rules, QUEUE)
    case None => Success(None)
    case Some(rule) =>
      if PARAMS <= ValuesOf(rule).Keys then Success(Some(map key | key in PARAMS :: ValuesOf(rule)[key]))
      else Failure(NO_PARAMETERS)
  }

  function ReviewCount(rules: seq<Rule>): Option<Value> {
    match First(rules, REVIEW)
    case Some(rule) => Some(Lookup(ValuesOf(rule), COUNT, Num(0)))
    case None => None
  }

  function ExtraApproval(rules: seq<Rule>): Option<bool> {
    match First(rules, REVIEW)
    case Some(rule) => Some(Truthy(Lookup(ValuesOf(rule), EXTRA, Flag(false))))
    case None => None
  }

  function RequiredChecks(rules: seq<Rule>): Option<seq<Check>> {
    match First(rules, CHECKS)
    case Some(rule) => Some(ChecksOf(rule))
    case None => None
  }

  function StrictFlag(rules: seq<Rule>): Value {
    match First(rules, CHECKS)
    case Some(rule) => Lookup(ValuesOf(rule), STRICT, Null)
    case None => Null
  }

  /** What the plan reads of one ruleset. */
  datatype Item = Item(
    subject: Subject, name: string, live: Option<map<string, Value>>, count: Option<Value>, extra: Option<bool>,
    checks: Option<seq<Check>>, strict: Value)

  function ReadItem(s: Subject, rs: Ruleset): Result<Item, string> {
    match QueueParams(rs.rules)
    case Failure(error) => Failure(error)
    case Success(live) =>
      var checks := RequiredChecks(rs.rules);
      Success(Item(s, rs.name, live, ReviewCount(rs.rules), ExtraApproval(rs.rules),
        if checks.Some? then Some(ProjectAll(checks.value)) else None, StrictFlag(rs.rules)))
  }

  // ---- drift -----------------------------------------------------------------------------

  datatype Change<T> = Change(from: T, to: T)

  datatype Drift = Drift(
    settings: map<string, Change<Value>>, count: Option<Change<Value>>, extra: Option<Change<bool>>,
    checks: Option<Change<seq<Check>>>, strict: Option<Change<Value>>)

  const NONE := Drift(map[], None, None, None, None)

  function Differs<T(==)>(from: T, to: T): Option<Change<T>> {
    if from != to then Some(Change(from, to)) else None
  }

  function ValueDiffers(from: Value, to: Value): Option<Change<Value>> {
    if Norm(from) != Norm(to) then Some(Change(from, to)) else None
  }

  function SettingsDrift(live: map<string, Value>, want: map<string, Value>): map<string, Change<Value>>
    requires live.Keys == want.Keys
  {
    map key | key in live && Norm(live[key]) != Norm(want[key]) :: Change(live[key], want[key])
  }

  function Current(item: Item): seq<Check> {
    if item.checks.Some? then item.checks.value else []
  }

  function ChecksDrift(item: Item, checks: seq<Check>): Option<Change<seq<Check>>> {
    if checks == [] || SameChecks(Current(item), Merge(Current(item), checks)) then None
    else Some(Change(Current(item), Merge(Current(item), checks)))
  }

  /** What drifts of one ruleset. Checking one context only, nothing else is looked at. The strict flag must be the
      boolean itself; everything else is compared by equality. */
  function PlanItem(item: Item, p: Policy, only: Option<string>): Result<Drift, string>
    requires ValidPolicy(p) && (item.live.Some? ==> item.live.value.Keys == PARAMS)
  {
    match DesiredChecks(p.targets, item.subject, item.name, only)
    case Failure(error) => Failure(error)
    case Success(checks) =>
      if only.Some? then Success(NONE.(checks := ChecksDrift(item, checks)))
      else
        SettingsKeys(p.overrides, p.settings, item.subject.repo, item.name);
        Success(Drift(
          if item.live.Some? then SettingsDrift(item.live.value, DesiredSettings(p, item.subject.repo, item.name))
              else map[],
          if item.count.Some? then ValueDiffers(item.count.value, p.count) else None,
          if item.extra.Some? then Differs(item.extra.value, p.extra) else None,
          ChecksDrift(item, checks),
          if item.live.Some? && item.checks.Some? then Differs(item.strict, Flag(p.strict)) else None))
  }

  // ---- the write -------------------------------------------------------------------------

  /** What applying the policy sets in this ruleset: the settings by the name it was planned under, the checks by the
      name it has now. */
  function EditFor(p: Policy, s: Subject, planned: string, before: Ruleset): Result<Edit, string> {
    match DesiredChecks(p.targets, s, before.name, None)
    case Failure(error) => Failure(error)
    case Success(checks) =>
      match QueueParams(before.rules)
      case Failure(error) => Failure(error)
      case Success(live) =>
        Success(Edit(Some(DesiredSettings(p, s.repo, planned)), Some(map[COUNT := p.count, EXTRA := Flag(p.extra)]),
          Some(checks), if live.Some? then Some(Flag(p.strict)) else None))
  }

  /** The body a write puts: the whole policy, or the checks of one context. */
  function Body(p: Policy, s: Subject, planned: string, before: Ruleset,
                only: Option<string>): Result<Ruleset, string> {
    if only.Some? then
      match DesiredChecks(p.targets, s, before.name, only)
      case Failure(error) => Failure(error)
      case Success(checks) =>
        if QueueParams(before.rules).Failure? then Failure(NO_PARAMETERS) else WithChecksOnly(before, checks)
    else
      match EditFor(p, s, planned, before)
      case Failure(error) => Failure(error)
      case Success(e) =>
        if Rewritable(before.rules) then Success(PutBody(before).(rules := Rewritten(before.rules, e)))
        else Failure(NO_PARAMETERS)
  }

  // ---- what is compared on reading back --------------------------------------------------

  /** Context and integration of a check; an absent or empty integration counts as none. */
  function Pair(check: Check): (string, Value) {
    var id := Lookup(check.fields, INTEGRATION, Null);
    (check.context, if Truthy(id) then Norm(id) else Null)
  }

  /** The check names no integration. */
  ghost predicate Unbound(check: Check) {
    INTEGRATION !in check.fields || !Truthy(check.fields[INTEGRATION])
  }

  /** Two checks are bound alike exactly when they have one context and equal integrations, or none. */
  lemma PairExact(a: Check, b: Check)
    ensures Pair(a) == Pair(b) <==>
      && a.context == b.context && (Unbound(a) <==> Unbound(b))
      && (!Unbound(a) && !Unbound(b) ==> Norm(a.fields[INTEGRATION]) == Norm(b.fields[INTEGRATION]))
  {
  }

  /** The bindings without their order. */
  function Bindings(checks: seq<Check>): multiset<(string, Value)> {
    if checks == [] then multiset{} else multiset{Pair(checks[0])} + Bindings(checks[1..])
  }

  /** What is managed, each value up to equality. */
  datatype Managed = Managed(
    queue: Option<map<string, Value>>, count: Option<Value>, extra: Option<bool>,
    bindings: Option<multiset<(string, Value)>>, strict: Value)

  function ManagedOf(rs: Ruleset): Result<Managed, string> {
    match QueueParams(rs.rules)
    case Failure(error) => Failure(error)
    case Success(queue) =>
      Success(Managed(NormQueue(queue), NormOption(ReviewCount(rs.rules)), ExtraApproval(rs.rules),
          BindingsOf(rs.rules), Norm(StrictFlag(rs.rules))))
  }

  function BindingsOf(rules: seq<Rule>): Option<multiset<(string, Value)>> {
    var checks := RequiredChecks(rules);
    if checks.Some? then Some(Bindings(checks.value)) else None
  }

  // ---- lists with the same bindings ------------------------------------------------------

  lemma {:induction false} BindingsAt(checks: seq<Check>, context: string, pair: (string, Value))
    ensures Bindings(AtContext(checks, context))[pair] == if pair.0 == context then Bindings(checks)[pair] else 0
    ensures |Bindings(checks)| == |checks|
  {
    if checks != [] {
      BindingsAt(checks[1..], context, pair);
      var rest := AtContext(checks[1..], context);
      if checks[0].context == context {
        assert AtContext(checks, context) == [checks[0]] + rest && ([checks[0]] + rest)[1..] == rest;
      } else {
        assert AtContext(checks, context) == rest;
      }
    }
  }

  /** Where the bindings are the same, so is the one check of a context. */
  lemma SameOne(a: seq<Check>, b: seq<Check>, context: string)
    requires Bindings(a) == Bindings(b) && |AtContext(b, context)| == 1
    ensures |AtContext(a, context)| == 1 && Pair(AtContext(a, context)[0]) == Pair(AtContext(b, context)[0])
  {
    var x, y := AtContext(a, context), AtContext(b, context);
    forall pair ensures Bindings(x)[pair] == Bindings(y)[pair] {
      BindingsAt(a, context, pair);
      BindingsAt(b, context, pair);
    }
    assert Bindings(x) == Bindings(y);
    BindingsAt(x, context, ("", Null));
    BindingsAt(y, context, ("", Null));
    assert x[1..] == [] && y[1..] == [];
    assert Bindings(y) == multiset{Pair(y[0])} && Bindings(x) == multiset{Pair(x[0])};
    assert Pair(y[0]) in Bindings(x);
  }

  predicate AllPlain(checks: seq<Check>) {
    forall i :: 0 <= i < |checks| ==> Plain(checks[i])
  }

  lemma {:induction false} NormBindings(checks: seq<Check>)
    ensures Bindings(NormChecks(checks)) == Bindings(checks)
  {
    if checks != [] {
      NormRest(checks);
      NormPair(checks[0]);
      NormBindings(checks[1..]);
    }
  }

  lemma NormPair(check: Check)
    ensures Pair(NormCheck(check)) == Pair(check)
  {
  }

  lemma NormValid(checks: seq<Check>)
    requires ValidChecks(checks)
    ensures ValidChecks(NormChecks(checks)) && (AllPlain(NormChecks(checks)) <==> AllPlain(checks))
  {
    forall i | 0 <= i < |checks|
      ensures Positive(NormChecks(checks)[i]) && (Plain(NormChecks(checks)[i]) <==> Plain(checks[i]))
    {
      assert Positive(checks[i]);
      assert NormMap(checks[i].fields).Keys == checks[i].fields.Keys;
    }
  }

  lemma NormTwice(checks: seq<Check>)
    ensures NormChecks(NormChecks(checks)) == NormChecks(checks)
  {
    forall i | 0 <= i < |checks| ensures NormCheck(NormCheck(checks[i])) == NormCheck(checks[i]) {
      assert NormMap(NormMap(checks[i].fields)) == NormMap(checks[i].fields);
    }
  }

  /** A list with the bindings of the merged one shows the plan no drift exactly when every declaration is plain. */
  lemma SameBindingsReplan(current: seq<Check>, desired: seq<Check>, after: seq<Check>)
    requires ValidChecks(desired) && Bindings(after) == Bindings(Merge(current, desired))
    ensures SameChecks(ProjectAll(after), Merge(ProjectAll(after), desired)) <==> AllPlain(desired)
  {
    var c, d, a := NormChecks(current), NormChecks(desired), NormChecks(after);
    NormMerge(current, desired);
    NormBindings(after);
    NormBindings(Merge(current, desired));
    NormValid(desired);
    NormTwice(after);
    NormalReplan(c, d, a);
    NormProjectAll(after);
    NormMerge(ProjectAll(after), desired);
  }

  lemma NormalReplan(current: seq<Check>, desired: seq<Check>, after: seq<Check>)
    requires ValidChecks(desired) && Bindings(after) == Bindings(Merge(current, desired)) && NormChecks(after) == after
    ensures Merge(ProjectAll(after), desired) == ProjectAll(after) <==> AllPlain(desired)
  {
    forall i | 0 <= i < |desired| ensures Settled(ProjectAll(after), desired[i]) <==> Plain(desired[i]) {
      SettledAfter(current, desired, after, i);
    }
    MergeFixed(ProjectAll(after), desired);
  }

  lemma NormalIntegration(checks: seq<Check>, check: Check)
    requires NormChecks(checks) == checks && check in checks
    ensures INTEGRATION in check.fields ==> Norm(check.fields[INTEGRATION]) == check.fields[INTEGRATION]
  {
    var i :| 0 <= i < |checks| && checks[i] == check;
    assert checks[i] == NormCheck(checks[i]);
  }

  lemma SettledAfter(current: seq<Check>, desired: seq<Check>, after: seq<Check>, i: nat)
    requires ValidChecks(desired) && Bindings(after) == Bindings(Merge(current, desired)) && i < |desired|
    requires NormChecks(after) == after
    ensures Settled(ProjectAll(after), desired[i]) <==> Plain(desired[i])
  {
    var b := desired[i];
    assert Positive(b);
    MergedPair(current, desired, i);
    SameOne(after, Merge(current, desired), b.context);
    ProjectAt(after, b.context);
    var one := AtContext(after, b.context)[0];
    assert AtContext(after, b.context) == [one];
    AtContextHas(after, b.context, 0);
    NormalIntegration(after, one);
    assert AtContext(ProjectAll(after), b.context) == [Project(one)];
    ProjectSettles(one, b);
  }

  /** The one merged check of a declared context has the declared integration. */
  lemma MergedPair(current: seq<Check>, desired: seq<Check>, i: nat)
    requires ValidChecks(desired) && i < |desired|
    ensures var b := desired[i]; var merged := AtContext(Merge(current, desired), b.context);
      |merged| == 1 && INTEGRATION in b.fields && Pair(merged[0]) == (b.context, b.fields[INTEGRATION])
  {
    var b := desired[i];
    assert Positive(b);
    DeclaredOnce(current, desired, i);
    var merged := AtContext(Merge(current, desired), b.context)[0];
    assert merged.fields[INTEGRATION] == b.fields[INTEGRATION];
  }

  lemma ProjectSettles(one: Check, b: Check)
    requires Positive(b) && one.context == b.context && Pair(one) == (b.context, b.fields[INTEGRATION])
    requires INTEGRATION in one.fields ==> Norm(one.fields[INTEGRATION]) == one.fields[INTEGRATION]
    ensures Holds(Project(one), b) <==> Plain(b)
  {
    assert Project(one).fields[INTEGRATION] == b.fields[INTEGRATION];
    if Holds(Project(one), b) {
      assert b.fields.Keys <= {INTEGRATION};
    }
  }
}
