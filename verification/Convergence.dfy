/** Convergence: a ruleset that reads back as what was put shows the plan no drift. */
module Convergence {
  import opened Wrappers
  import opened Rulesets
  import opened Rewrites
  import opened RulesetPlan
  import opened Equality

  /** The declared checks that a write with this scope is about. */
  function Scope(p: Policy, s: Subject, name: string, only: Option<string>): seq<Check> {
    match DesiredChecks(p.targets, s, name, only)
    case Success(checks) => checks
    case Failure(_) => []
  }

  lemma ScopeValid(p: Policy, s: Subject, name: string, only: Option<string>)
    requires ValidPolicy(p)
    ensures ValidChecks(Scope(p, s, name, only))
  {
    DesiredValid(p.targets, s, name, only);
  }

  lemma SetAll(keys: set<string>, values: map<string, Value>, settings: map<string, Value>)
    requires settings.Keys == keys
    ensures keys <= (values + settings).Keys
    ensures (map key | key in keys :: (values + settings)[key]) == settings
  {
  }

  /** The queue a rewrite leaves in the first rule of its kind. */
  lemma RewrittenQueue(rules: seq<Rule>, e: Edit)
    requires e.queue.Some? && e.queue.value.Keys == PARAMS
    ensures QueueParams(Rewritten(rules, e)) == Success(if Has(rules, QUEUE) then e.queue else None)
  {
    FirstRewritten(rules, e, QUEUE);
    FirstHas(rules, QUEUE);
    if First(rules, QUEUE).Some? {
      var r := First(rules, QUEUE).value;
      SetAll(PARAMS, ValuesOf(r), e.queue.value);
      assert ValuesOf(EditRule(r, e)) == ValuesOf(r) + e.queue.value;
    }
  }

  lemma BodyQueue(p: Policy, s: Subject, planned: string, before: Ruleset)
    requires ValidPolicy(p) && Body(p, s, planned, before, None).Success?
    ensures QueueParams(before.rules).Success?
    ensures QueueParams(Body(p, s, planned, before, None).value.rules)
         == Success(if QueueParams(before.rules).value.Some? then Some(DesiredSettings(p, s.repo, planned)) else None)
  {
    SettingsKeys(p.overrides, p.settings, s.repo, planned);
    RewrittenQueue(before.rules, EditFor(p, s, planned, before).value);
    FirstHas(before.rules, QUEUE);
  }

  lemma BodyReview(p: Policy, s: Subject, planned: string, before: Ruleset)
    requires Body(p, s, planned, before, None).Success?
    ensures var rules := Body(p, s, planned, before, None).value.rules;
      && ReviewCount(rules) == (if Has(before.rules, REVIEW) then Some(p.count) else None)
      && ExtraApproval(rules) == (if Has(before.rules, REVIEW) then Some(p.extra) else None)
  {
    var e := EditFor(p, s, planned, before).value;
    FirstRewritten(before.rules, e, REVIEW);
    FirstHas(before.rules, REVIEW);
  }

  lemma {:induction false} OthersOfNone(checks: seq<Check>)
    ensures Others(checks, {}) == checks
  {
    if checks != [] {
      OthersOfNone(checks[1..]);
    }
  }

  /** The checks that are in the first rule of checks, if there is one. */
  function CurrentChecks(rules: seq<Rule>): seq<Check> {
    if RequiredChecks(rules).Some? then RequiredChecks(rules).value else []
  }

  lemma BodyChecks(p: Policy, s: Subject, planned: string, before: Ruleset)
    requires Body(p, s, planned, before, None).Success?
    ensures var rules := Body(p, s, planned, before, None).value.rules; var checks := Scope(p, s, before.name, None);
      RequiredChecks(rules) == if Has(before.rules, CHECKS) || checks != []
        then Some(Merge(CurrentChecks(before.rules), checks)) else None
  {
    var e := EditFor(p, s, planned, before).value;
    var checks := Scope(p, s, before.name, None);
    assert e.checks == Some(checks);
    FirstRewritten(before.rules, e, CHECKS);
    FirstHas(before.rules, CHECKS);
    OthersOfNone(checks);
    assert Contexts([]) == {};
    assert Merge([], checks) == checks;
  }

  lemma BodyStrict(p: Policy, s: Subject, planned: string, before: Ruleset)
    requires ValidPolicy(p) && Body(p, s, planned, before, None).Success?
    ensures QueueParams(before.rules).Success?
    ensures var rules := Body(p, s, planned, before, None).value.rules;
      QueueParams(before.rules).value.Some? && RequiredChecks(rules).Some? ==> StrictFlag(rules) == Flag(p.strict)
  {
    var e := EditFor(p, s, planned, before).value;
    FirstRewritten(before.rules, e, CHECKS);
    FirstHas(before.rules, CHECKS);
  }

  /** The queue settings that were put are those of the name the ruleset has now. */
  ghost predicate SameSettings(p: Policy, s: Subject, planned: string, before: Ruleset, name: string) {
    First(before.rules, QUEUE).Some? ==> Agree(p, s.repo, planned, name)
  }

  /** The policy wants the same of both names. */
  ghost predicate Agree(p: Policy, repo: string, a: string, b: string) {
    forall key, v, x :: Wants(p, repo, a, key, v) && Wants(p, repo, b, key, x) ==> Norm(v) == Norm(x)
  }

  lemma AgreeMeans(p: Policy, repo: string, a: string, b: string)
    requires ValidPolicy(p)
    ensures Agree(p, repo, a, b) <==> SameValues(DesiredSettings(p, repo, a), DesiredSettings(p, repo, b))
  {
    SettingsKeys(p.overrides, p.settings, repo, a);
    SettingsKeys(p.overrides, p.settings, repo, b);
    var x, y := DesiredSettings(p, repo, a), DesiredSettings(p, repo, b);
    forall key, v, u ensures Wants(p, repo, a, key, v) && Wants(p, repo, b, key, u) <==>
        key in x && x[key] == v && key in y && y[key] == u
    {
      SettingsExact(p, repo, a, key, v);
      SettingsExact(p, repo, b, key, u);
    }
    if SameValues(x, y) {
      forall key | key in x ensures Norm(x[key]) == Norm(y[key]) {
        assert NormMap(x)[key] == NormMap(y)[key];
      }
    }
    if Agree(p, repo, a, b) {
      forall key | key in x ensures Norm(x[key]) == Norm(y[key]) {
        assert Wants(p, repo, a, key, x[key]) && Wants(p, repo, b, key, y[key]);
      }
    }
  }

  /** These settings are what the policy wants of this ruleset. */
  ghost predicate Follows(live: map<string, Value>, p: Policy, repo: string, ruleset: string) {
    forall key, v :: Wants(p, repo, ruleset, key, v) ==> key in live && Norm(live[key]) == Norm(v)
  }

  lemma FollowsMeans(live: map<string, Value>, p: Policy, repo: string, ruleset: string)
    requires ValidPolicy(p) && live.Keys == PARAMS
    ensures Follows(live, p, repo, ruleset) <==> SameValues(live, DesiredSettings(p, repo, ruleset))
  {
    SettingsKeys(p.overrides, p.settings, repo, ruleset);
    var want := DesiredSettings(p, repo, ruleset);
    forall key, v ensures Wants(p, repo, ruleset, key, v) <==> key in want && want[key] == v {
      SettingsExact(p, repo, ruleset, key, v);
    }
    if SameValues(live, want) {
      forall key | key in want ensures Norm(live[key]) == Norm(want[key]) {
        assert NormMap(live)[key] == NormMap(want)[key];
      }
    }
    if Follows(live, p, repo, ruleset) {
      forall key | key in want ensures Norm(live[key]) == Norm(want[key]) {
        assert Wants(p, repo, ruleset, key, want[key]);
      }
    }
  }

  /** The parameters of the first queue, if there is one, can be read. */
  ghost predicate QueueReads(rules: seq<Rule>) {
    forall i: nat :: FirstOf(rules, QUEUE, i) ==> forall key :: key in PARAMS ==> key in ValuesOf(rules[i])
  }

  ghost predicate FirstOf(rules: seq<Rule>, kind: string, i: nat) {
    i < |rules| && rules[i].kind == kind && forall j :: 0 <= j < i ==> rules[j].kind != kind
  }

  lemma {:induction false} FirstExact(rules: seq<Rule>, kind: string, i: nat)
    requires FirstOf(rules, kind, i)
    ensures First(rules, kind) == Some(rules[i])
  {
    if i > 0 {
      assert rules[1..][i - 1] == rules[i];
      forall j | 0 <= j < i - 1 ensures rules[1..][j].kind != kind {
        assert rules[1..][j] == rules[j + 1];
      }
      FirstExact(rules[1..], kind, i - 1);
    }
  }

  lemma {:induction false} FirstFound(rules: seq<Rule>, kind: string) returns (i: nat)
    requires First(rules, kind).Some?
    ensures FirstOf(rules, kind, i)
  {
    if rules[0].kind == kind {
      i := 0;
    } else {
      i := FirstFound(rules[1..], kind);
      forall j | 0 <= j < i + 1 ensures rules[j].kind != kind {
        assert j > 0 ==> rules[1..][j - 1] == rules[j];
      }
      i := i + 1;
    }
  }

  lemma QueueReadsMeans(rules: seq<Rule>)
    ensures QueueParams(rules).Success? <==> QueueReads(rules)
  {
    if First(rules, QUEUE).Some? {
      var i := FirstFound(rules, QUEUE);
      FirstExact(rules, QUEUE, i);
    }
    forall i: nat | FirstOf(rules, QUEUE, i) ensures First(rules, QUEUE) == Some(rules[i]) {
      FirstExact(rules, QUEUE, i);
    }
  }

  /** A write is prepared exactly when no check is declared for another name, the first queue can be read, and every
      queue has parameters; for one context alone, when there is one rule of checks with a list and something to
      adopt. */
  lemma BodyExact(p: Policy, s: Subject, planned: string, before: Ruleset, only: Option<string>)
    ensures Body(p, s, planned, before, only).Success? <==>
      && NamedSo(p, s, before.name) && QueueReads(before.rules)
      && if only.None? then Rewritable(before.rules)
         else Scope(p, s, before.name, only) != [] && exists i: nat :: Adoptable(before.rules, i)
  {
    QueueReadsMeans(before.rules);
    ChecksExact(p.targets, s, before.name, only);
    ChecksExact(p.targets, s, before.name, None);
    ChecksOnlyExact(before, Scope(p, s, before.name, only));
  }

  /** In every rule of checks the strict flag is the policy's where there is a queue, and stays as it is elsewhere. */
  lemma PutsStrict(p: Policy, s: Subject, planned: string, before: Ruleset, i: nat)
    requires Body(p, s, planned, before, None).Success? && i < |before.rules| && before.rules[i].kind == CHECKS
    ensures var rule := Body(p, s, planned, before, None).value.rules[i];
      if Has(before.rules, QUEUE) then ValuesOf(rule) == ValuesOf(before.rules[i])[STRICT := Flag(p.strict)]
      else ValuesOf(rule) == ValuesOf(before.rules[i])
  {
    FirstHas(before.rules, QUEUE);
    var e := EditFor(p, s, planned, before).value;
    assert Rewritten(before.rules, e)[i] == EditRule(before.rules[i], e);
    assert ValuesOf(before.rules[i]) + Setting(STRICT, None) == ValuesOf(before.rules[i]);
    assert ValuesOf(before.rules[i]) + Setting(STRICT, Some(Flag(p.strict)))
        == ValuesOf(before.rules[i])[STRICT := Flag(p.strict)];
  }

  /** In every rule of reviews the count and the extra approval are the policy's. */
  lemma PutsReview(p: Policy, s: Subject, planned: string, before: Ruleset, i: nat)
    requires Body(p, s, planned, before, None).Success? && i < |before.rules| && before.rules[i].kind == REVIEW
    ensures var rule := Body(p, s, planned, before, None).value.rules[i];
      ValuesOf(rule) == ValuesOf(before.rules[i])[COUNT := p.count][EXTRA := Flag(p.extra)]
  {
    var e := EditFor(p, s, planned, before).value;
    assert Rewritten(before.rules, e)[i] == EditRule(before.rules[i], e);
    KeysDiffer();
    assert ValuesOf(before.rules[i]) + map[COUNT := p.count, EXTRA := Flag(p.extra)]
        == ValuesOf(before.rules[i])[COUNT := p.count][EXTRA := Flag(p.extra)];
  }

  lemma KeysDiffer()
    ensures COUNT != EXTRA
  {
    assert COUNT[9] != EXTRA[9];
  }

  /** A write puts the wanted settings into every queue: those of the repository and of the planned name. */
  lemma PutsWanted(p: Policy, s: Subject, planned: string, before: Ruleset, i: nat, key: string, v: Value)
    requires ValidPolicy(p) && Body(p, s, planned, before, None).Success?
    requires i < |before.rules| && before.rules[i].kind == QUEUE && Wants(p, s.repo, planned, key, v)
    ensures var rule := Body(p, s, planned, before, None).value.rules[i];
      key in ValuesOf(rule) && ValuesOf(rule)[key] == v
  {
    SettingsExact(p, s.repo, planned, key, v);
    var e := EditFor(p, s, planned, before).value;
    assert Rewritten(before.rules, e)[i] == EditRule(before.rules[i], e);
  }

  /** The strict flag reads back as a boolean, where the plan looks at it: equality takes 0 for false, the plan does
      not. */
  predicate StrictIsFlag(before: Ruleset, after: Ruleset) {
    First(before.rules, QUEUE).Some? && RequiredChecks(after.rules).Some? ==> StrictFlag(after.rules).Flag?
  }

  /** Checks are declared for the ruleset by its name: under another name the plan refuses. */
  lemma {:induction false} ScopeByName(targets: seq<Target>, s: Subject, name: string, other: string)
    requires forall i :: 0 <= i < |targets| ==> targets[i].checks != []
    requires DesiredChecks(targets, s, name, None).Success?
    ensures var checks := DesiredChecks(targets, s, name, None).value;
      DesiredChecks(targets, s, other, None)
      == if checks == [] || other == name then Success(checks) else Failure(RENAMED)
  {
    if targets != [] {
      if !(s.repo in targets[0].repos && targets[0].id == s.id) {
        ScopeByName(targets[1..], s, name, other);
      }
    }
  }

  /** Whatever the server stored: when its managed part reads back as put, the next plan of it reports no drift if
      and only if every declared check names nothing but its context and integration, the ruleset still has the
      name its checks are declared for, the settings that were put, chosen by the planned name, are those of the
      name it has, and the strict flag reads back as a boolean. */
  lemma Converged(p: Policy, s: Subject, planned: string, before: Ruleset, after: Ruleset)
    requires ValidPolicy(p) && Body(p, s, planned, before, None).Success?
    requires ManagedOf(after) == ManagedOf(Body(p, s, planned, before, None).value)
    ensures ReadItem(s, after).Success?
    ensures PlanItem(ReadItem(s, after).value, p, None) == Success(NONE) <==>
            var checks := Scope(p, s, before.name, None);
            && AllPlain(checks) && (checks == [] || after.name == before.name)
            && SameSettings(p, s, planned, before, after.name) && StrictIsFlag(before, after)
  {
    var checks := Scope(p, s, before.name, None);
    BodyReads(p, s, planned, before);
    ScopeByName(p.targets, s, before.name, after.name);
    if checks == [] || after.name == before.name {
      OtherDrift(p, s, planned, before, after);
      ChecksConverge(p, s, planned, before, after);
    }
  }

  /** What can still drift: settings, checks and the strict flag. */
  lemma OtherDrift(p: Policy, s: Subject, planned: string, before: Ruleset, after: Ruleset)
    requires ValidPolicy(p) && Body(p, s, planned, before, None).Success?
    requires ManagedOf(Body(p, s, planned, before, None).value).Success?
    requires ManagedOf(after) == ManagedOf(Body(p, s, planned, before, None).value)
    requires var checks := Scope(p, s, before.name, None);
      DesiredChecks(p.targets, s, after.name, None) == Success(checks)
    ensures ReadItem(s, after).Success?
    ensures var item := ReadItem(s, after).value;
      PlanItem(item, p, None) == Success(NONE) <==>
      && SameSettings(p, s, planned, before, after.name) && StrictIsFlag(before, after)
      && ChecksDrift(item, Scope(p, s, before.name, None)).None?
  {
    QueueDrift(p, s, planned, before, after);
    ReviewDrift(p, s, planned, before, after);
    StrictDrift(p, s, planned, before, after);
    SettingsKeys(p.overrides, p.settings, s.repo, after.name);
  }

  lemma QueueDrift(p: Policy, s: Subject, planned: string, before: Ruleset, after: Ruleset)
    requires ValidPolicy(p) && Body(p, s, planned, before, None).Success?
    requires ManagedOf(Body(p, s, planned, before, None).value).Success?
    requires ManagedOf(after) == ManagedOf(Body(p, s, planned, before, None).value)
    ensures ReadItem(s, after).Success?
    ensures var live, want := ReadItem(s, after).value.live, DesiredSettings(p, s.repo, after.name);
      && (live.Some? <==> First(before.rules, QUEUE).Some?)
      && want.Keys == PARAMS && (live.Some? ==> live.value.Keys == PARAMS)
      && (SameSettings(p, s, planned, before, after.name) <==>
          (live.Some? ==> SettingsDrift(live.value, want) == map[]))
  {
    BodyQueue(p, s, planned, before);
    SettingsKeys(p.overrides, p.settings, s.repo, planned);
    SettingsKeys(p.overrides, p.settings, s.repo, after.name);
    var item := ReadItem(s, after).value;
    AgreeMeans(p, s.repo, planned, after.name);
    if item.live.Some? {
      assert SameValues(item.live.value, DesiredSettings(p, s.repo, planned));
      SettingsDriftExact(item.live.value, DesiredSettings(p, s.repo, after.name));
    }
  }

  lemma ReviewDrift(p: Policy, s: Subject, planned: string, before: Ruleset, after: Ruleset)
    requires ValidPolicy(p) && Body(p, s, planned, before, None).Success? && ReadItem(s, after).Success?
    requires ManagedOf(after) == ManagedOf(Body(p, s, planned, before, None).value)
    ensures var item := ReadItem(s, after).value;
      && (item.count.Some? ==> ValueDiffers(item.count.value, p.count) == None)
      && (item.extra.Some? ==> Differs(item.extra.value, p.extra) == None)
  {
    BodyQueue(p, s, planned, before);
    BodyReview(p, s, planned, before);
  }

  lemma StrictDrift(p: Policy, s: Subject, planned: string, before: Ruleset, after: Ruleset)
    requires ValidPolicy(p) && Body(p, s, planned, before, None).Success? && ReadItem(s, after).Success?
    requires ManagedOf(after) == ManagedOf(Body(p, s, planned, before, None).value)
    ensures var item := ReadItem(s, after).value;
      First(before.rules, QUEUE).Some? && item.checks.Some? ==>
        (Differs(item.strict, Flag(p.strict)) == None <==> StrictFlag(after.rules).Flag?)
    ensures ReadItem(s, after).value.checks.Some? <==> RequiredChecks(after.rules).Some?
  {
    BodyQueue(p, s, planned, before);
    BodyStrict(p, s, planned, before);
  }

  lemma ChecksConverge(p: Policy, s: Subject, planned: string, before: Ruleset, after: Ruleset)
    requires ValidPolicy(p) && Body(p, s, planned, before, None).Success?
    requires ManagedOf(Body(p, s, planned, before, None).value).Success?
    requires ManagedOf(after) == ManagedOf(Body(p, s, planned, before, None).value)
    requires ReadItem(s, after).Success?
    ensures var checks := Scope(p, s, before.name, None);
      ChecksDrift(ReadItem(s, after).value, checks).None? <==> AllPlain(checks)
  {
    var checks := Scope(p, s, before.name, None);
    ScopeValid(p, s, before.name, None);
    BodyChecks(p, s, planned, before);
    if checks != [] {
      SameBindingsReplan(CurrentChecks(before.rules), checks, RequiredChecks(after.rules).value);
    }
  }

  /** The write itself reads back as settled: its queue, review and strict flag are the policy's. */
  lemma BodyReads(p: Policy, s: Subject, planned: string, before: Ruleset)
    requires ValidPolicy(p) && Body(p, s, planned, before, None).Success?
    ensures ManagedOf(Body(p, s, planned, before, None).value).Success?
  {
    BodyQueue(p, s, planned, before);
  }

  /** A ruleset as the policy wants it. */
  ghost predicate Conforms(item: Item, p: Policy) {
    && (item.live.Some? ==> Follows(item.live.value, p, item.subject.repo, item.name))
    && (item.count.Some? ==> Norm(item.count.value) == Norm(p.count))
    && (item.extra.Some? ==> item.extra.value == p.extra)
    && (forall b :: Declares(p, item.subject, b) ==> SettledAlike(Current(item), b))
    && (item.live.Some? && item.checks.Some? ==> item.strict == Flag(p.strict))
  }

  /** The policy declares this check: it is one of the first target for this repository and id. */
  ghost predicate Declares(p: Policy, s: Subject, b: Check) {
    exists i: nat :: FirstFor(p.targets, s, i) && b in p.targets[i].checks
  }

  /** The checks are declared for the name that the ruleset has. */
  ghost predicate NamedSo(p: Policy, s: Subject, name: string) {
    forall i: nat :: FirstFor(p.targets, s, i) ==> p.targets[i].ruleset == name
  }

  lemma DeclaresMeans(p: Policy, s: Subject, name: string)
    ensures NamedSo(p, s, name) <==> DesiredChecks(p.targets, s, name, None).Success?
    ensures NamedSo(p, s, name) ==>
              forall b :: Declares(p, s, b) <==> b in DesiredChecks(p.targets, s, name, None).value
  {
    ChecksExact(p.targets, s, name, None);
  }

  /** The plan reports no drift exactly when the ruleset is as the policy wants it. */
  lemma PlanExact(item: Item, p: Policy)
    requires ValidPolicy(p) && (item.live.Some? ==> item.live.value.Keys == PARAMS)
    ensures PlanItem(item, p, None).Success? <==> NamedSo(p, item.subject, item.name)
    ensures PlanItem(item, p, None) == Success(NONE) <==> NamedSo(p, item.subject, item.name) && Conforms(item, p)
  {
    DeclaresMeans(p, item.subject, item.name);
    if NamedSo(p, item.subject, item.name) {
      NamedExact(item, p);
    }
  }

  lemma NamedExact(item: Item, p: Policy)
    requires ValidPolicy(p) && (item.live.Some? ==> item.live.value.Keys == PARAMS)
    requires NamedSo(p, item.subject, item.name)
    ensures PlanItem(item, p, None) == Success(NONE) <==> Conforms(item, p)
  {
    DeclaresMeans(p, item.subject, item.name);
    var checks := Scope(p, item.subject, item.name, None);
    ScopeValid(p, item.subject, item.name, None);
    ChecksDriftExact(item, checks);
    SettingsKeys(p.overrides, p.settings, item.subject.repo, item.name);
    if item.live.Some? {
      FollowsMeans(item.live.value, p, item.subject.repo, item.name);
      SettingsDriftExact(item.live.value, DesiredSettings(p, item.subject.repo, item.name));
    }
  }

  lemma ChecksDriftExact(item: Item, checks: seq<Check>)
    requires ValidChecks(checks)
    ensures ChecksDrift(item, checks).None? <==>
        forall i :: 0 <= i < |checks| ==> SettledAlike(Current(item), checks[i])
  {
    MergeSame(Current(item), checks);
  }

  lemma SettingsDriftExact(live: map<string, Value>, want: map<string, Value>)
    requires live.Keys == want.Keys
    ensures SettingsDrift(live, want) == map[] <==> SameValues(live, want)
  {
    if SettingsDrift(live, want) == map[] {
      forall key | key in live ensures Norm(live[key]) == Norm(want[key]) {
        assert key !in SettingsDrift(live, want);
      }
    }
    if SameValues(live, want) {
      forall key | key in live ensures Norm(live[key]) == Norm(want[key]) {
        assert NormMap(live)[key] == NormMap(want)[key];
      }
    }
  }

  // ---- a renamed ruleset -----------------------------------------------------------------

  /** A ruleset planned under one name and read under another, whose settings differ: the server stores exactly what
      is put, the reply matches, and the next plan drifts. */
  lemma RenamedDrifts(p: Policy, s: Subject, planned: string, before: Ruleset)
    requires ValidPolicy(p) && Body(p, s, planned, before, None).Success? && Has(before.rules, QUEUE)
    requires !Agree(p, s.repo, planned, before.name)
    ensures var body := Body(p, s, planned, before, None).value;
      && ManagedOf(body).Success? && body.name == before.name && ReadItem(s, body).Success?
      && PlanItem(ReadItem(s, body).value, p, None) != Success(NONE)
  {
    BodyReads(p, s, planned, before);
    FirstHas(before.rules, QUEUE);
    Converged(p, s, planned, before, Body(p, s, planned, before, None).value);
  }

  // ---- one context only ------------------------------------------------------------------

  lemma {:induction false} OneRule(rules: seq<Rule>, kind: string)
    requires CountKind(rules, kind) == 1
    ensures First(rules, kind).Some?
  {
    if rules[0].kind != kind {
      OneRule(rules[1..], kind);
    }
  }

  /** Equal rulesets have equal queues, and equal bindings in their first rule of checks. */
  lemma SameReads(a: Ruleset, b: Ruleset)
    requires NormRuleset(PutBody(a)) == NormRuleset(PutBody(b))
    ensures QueueParams(a.rules).Success? <==> QueueParams(b.rules).Success?
    ensures First(a.rules, CHECKS).Some? <==> First(b.rules, CHECKS).Some?
    ensures First(a.rules, CHECKS).Some? ==>
              Bindings(ChecksOf(First(a.rules, CHECKS).value)) == Bindings(ChecksOf(First(b.rules, CHECKS).value))
  {
    assert NormRules(a.rules) == NormRules(b.rules);
    NormFirst(a.rules, QUEUE);
    NormFirst(b.rules, QUEUE);
    NormFirst(a.rules, CHECKS);
    NormFirst(b.rules, CHECKS);
    if First(a.rules, QUEUE).Some? {
      SameRules(First(a.rules, QUEUE).value, First(b.rules, QUEUE).value);
    }
    if First(a.rules, CHECKS).Some? {
      SameRules(First(a.rules, CHECKS).value, First(b.rules, CHECKS).value);
    }
  }

  lemma SameRules(a: Rule, b: Rule)
    requires NormRule(a) == NormRule(b)
    ensures ValuesOf(a).Keys == ValuesOf(b).Keys && Bindings(ChecksOf(a)) == Bindings(ChecksOf(b))
  {
    assert NormMap(ValuesOf(a)).Keys == ValuesOf(a).Keys && NormMap(ValuesOf(b)).Keys == ValuesOf(b).Keys;
    assert NormChecks(ChecksOf(a)) == NormChecks(ChecksOf(b));
    NormBindings(ChecksOf(a));
    NormBindings(ChecksOf(b));
  }

  /** The same for the adoption of one context, where every field must read back as put. */
  lemma OneContextConverged(p: Policy, s: Subject, planned: string, before: Ruleset, context: string, after: Ruleset)
    requires ValidPolicy(p) && Body(p, s, planned, before, Some(context)).Success?
    requires NormRuleset(PutBody(after)) == NormRuleset(PutBody(Body(p, s, planned, before, Some(context)).value))
    ensures ReadItem(s, after).Success?
    ensures PlanItem(ReadItem(s, after).value, p, Some(context)) == Success(NONE)
       <==> AllPlain(Scope(p, s, before.name, Some(context)))
  {
    var only := Some(context);
    var checks := Scope(p, s, before.name, only);
    var e := ChecksEdit(checks);
    ScopeValid(p, s, before.name, only);
    var body := Body(p, s, planned, before, only).value;
    assert body.rules == Edited(before.rules, e);
    SameReads(after, body);
    FirstEdited(before.rules, e, CHECKS);
    FirstEdited(before.rules, e, QUEUE);
    FirstHas(before.rules, QUEUE);
    OneRule(before.rules, CHECKS);
    FirstHas(before.rules, CHECKS);
    var r := First(before.rules, CHECKS).value;
    assert ChecksOf(EditRule(r, e)) == Merge(ChecksOf(r), checks);
    assert QueueParams(body.rules) == QueueParams(before.rules);
    SameBindingsReplan(ChecksOf(r), checks, ChecksOf(First(after.rules, CHECKS).value));
  }
}
