/** The writers of rulesets: what each one changes, and that its result is settled. */
module Rewrites {
  import opened Wrappers
  import opened Rulesets

  const QUEUE := "merge_queue"
  const REVIEW := "pull_request"
  const CHECKS := "required_status_checks"

  const COUNT := "required_approving_review_count"
  const EXTRA := "require_extra_approval_for_unattributed_changes"
  const STRICT := "strict_required_status_checks_policy"
  const ON_CREATE := "do_not_enforce_on_create"

  /** The parameters of a merge queue. */
  const PARAMS: set<string> := {
    "merge_method", "grouping_strategy", "max_entries_to_build", "min_entries_to_merge", "max_entries_to_merge",
    "min_entries_to_merge_wait_minutes", "check_response_timeout_minutes"}

  /** What a write may carry besides the name and the rules. */
  const PUT_KEYS: set<string> := {"target", "enforcement", "bypass_actors", "conditions"}

  function PutBody(rs: Ruleset): Ruleset {
    Ruleset(rs.name, map key | key in rs.fields && key in PUT_KEYS :: rs.fields[key], rs.rules)
  }

  /** A write carries the name, the rules and these four fields, as they are, and nothing else. */
  lemma PutCarries(rs: Ruleset, key: string)
    ensures PutBody(rs).name == rs.name && PutBody(rs).rules == rs.rules
    ensures key in PutBody(rs).fields <==>
            key in rs.fields && key in ["target", "enforcement", "bypass_actors", "conditions"]
    ensures key in PutBody(rs).fields ==> PutBody(rs).fields[key] == rs.fields[key]
  {
    var four := ["target", "enforcement", "bypass_actors", "conditions"];
    assert four[0] in four && four[1] in four && four[2] in four && four[3] in four;
  }

  function ValuesOf(r: Rule): map<string, Value> {
    if r.params.Some? then r.params.value.values else map[]
  }

  function ListOf(r: Rule): Option<seq<Check>> {
    if r.params.Some? then r.params.value.checks else None
  }

  function ChecksOf(r: Rule): seq<Check> {
    if ListOf(r).Some? then ListOf(r).value else []
  }

  // ---- edits -----------------------------------------------------------------------------

  /** What to set: queue parameters; review count and extra approval; declared checks and the strict flag. */
  datatype Edit = Edit(
    queue: Option<map<string, Value>>,
    review: Option<map<string, Value>>,
    checks: Option<seq<Check>>,
    strict: Option<Value>)

  function Setting(key: string, value: Option<Value>): map<string, Value> {
    if value.Some? then map[key := value.value] else map[]
  }

  function EditRule(r: Rule, e: Edit): Rule {
    if r.kind == QUEUE && e.queue.Some? then r.(params := Some(Params(ValuesOf(r) + e.queue.value, ListOf(r))))
    else if r.kind == REVIEW && e.review.Some? then r.(params := Some(Params(ValuesOf(r) + e.review.value, ListOf(r))))
    else if r.kind == CHECKS && e.checks.Some? then
      r.(params := Some(Params(ValuesOf(r) + Setting(STRICT, e.strict), Some(Merge(ChecksOf(r), e.checks.value)))))
    else r
  }

  function Edited(rules: seq<Rule>, e: Edit): (edited: seq<Rule>)
    ensures |edited| == |rules|
  {
    seq(|rules|, i requires 0 <= i < |rules| => EditRule(rules[i], e))
  }

  predicate Has(rules: seq<Rule>, kind: string) {
    exists i :: 0 <= i < |rules| && rules[i].kind == kind
  }

  /** The rule added where checks are declared and no rule for them is there. */
  function Added(e: Edit): Rule {
    Rule(CHECKS, map[], Some(Params(
      map[STRICT := if e.strict.Some? then e.strict.value else Flag(true), ON_CREATE := Flag(false)],
      Some(if e.checks.Some? then e.checks.value else []))))
  }

  function Rewritten(rules: seq<Rule>, e: Edit): seq<Rule> {
    Edited(rules, e) + (if e.checks.Some? && e.checks.value != [] && !Has(rules, CHECKS) then [Added(e)] else [])
  }

  /** The keys an edit may set in a rule of this kind. */
  ghost function Touched(kind: string, e: Edit): set<string> {
    if kind == QUEUE && e.queue.Some? then e.queue.value.Keys
    else if kind == REVIEW && e.review.Some? then e.review.value.Keys
    else if kind == CHECKS && e.checks.Some? && e.strict.Some? then {STRICT}
    else {}
  }

  /** Two rules agree on everything but these keys and, in a rule of checks, the list of checks. */
  ghost predicate SameBut(r: Rule, edited: Rule, touched: set<string>) {
    && edited.kind == r.kind && edited.extras == r.extras
    && (forall key :: key !in touched ==>
          (key in ValuesOf(edited) <==> key in ValuesOf(r))
          && (key in ValuesOf(r) ==> ValuesOf(edited)[key] == ValuesOf(r)[key]))
    && (r.kind != CHECKS ==> ListOf(edited) == ListOf(r))
  }

  /** Rules stay in place; other rules and other parameters are unchanged; in a rule of checks the undeclared
      checks keep their order and number; at most one rule of checks is added, at the end. */
  lemma EditUnchanged(rules: seq<Rule>, e: Edit, i: nat)
    requires i < |rules|
    ensures |rules| <= |Rewritten(rules, e)| <= |rules| + 1
    ensures |Rewritten(rules, e)| > |rules| ==> !Has(rules, CHECKS)
    ensures SameBut(rules[i], Rewritten(rules, e)[i], Touched(rules[i].kind, e))
    ensures rules[i].kind !in {QUEUE, REVIEW, CHECKS} ==> Rewritten(rules, e)[i] == rules[i]
    ensures e.checks.Some? ==>
              Others(ChecksOf(Rewritten(rules, e)[i]), Contexts(e.checks.value))
              == Others(ChecksOf(rules[i]), Contexts(e.checks.value))
  {
    assert Rewritten(rules, e)[i] == EditRule(rules[i], e);
    EditRuleSame(rules[i], e);
    EditRuleUndeclared(rules[i], e);
  }

  lemma EditRuleSame(r: Rule, e: Edit)
    ensures SameBut(r, EditRule(r, e), Touched(r.kind, e))
  {
  }

  lemma EditRuleUndeclared(r: Rule, e: Edit)
    ensures r.kind !in {QUEUE, REVIEW, CHECKS} ==> EditRule(r, e) == r
    ensures e.checks.Some? ==>
              Others(ChecksOf(EditRule(r, e)), Contexts(e.checks.value)) ==
                  Others(ChecksOf(r), Contexts(e.checks.value))
  {
    if e.checks.Some? && r.kind == CHECKS {
      UndeclaredUnchanged(ChecksOf(r), e.checks.value);
    }
  }

  lemma EditRuleTwice(r: Rule, e: Edit)
    requires e.checks.Some? ==> Distinct(e.checks.value)
    ensures EditRule(EditRule(r, e), e) == EditRule(r, e)
  {
    if r.kind == QUEUE && e.queue.Some? {
      SetTwice(ValuesOf(r), e.queue.value);
    } else if r.kind == REVIEW && e.review.Some? {
      SetTwice(ValuesOf(r), e.review.value);
    } else if r.kind == CHECKS && e.checks.Some? {
      SetTwice(ValuesOf(r), Setting(STRICT, e.strict));
      MergeIdempotent(ChecksOf(r), e.checks.value);
    }
  }

  lemma SetTwice(m: map<string, Value>, q: map<string, Value>)
    ensures m + q + q == m + q
  {
  }

  lemma EditedHas(rules: seq<Rule>, e: Edit, kind: string)
    ensures Has(Edited(rules, e), kind) <==> Has(rules, kind)
  {
    if i :| 0 <= i < |rules| && rules[i].kind == kind {
      assert Edited(rules, e)[i].kind == kind;
    }
    if i :| 0 <= i < |rules| && Edited(rules, e)[i].kind == kind {
      assert rules[i].kind == kind;
    }
  }

  lemma AddedFixed(e: Edit)
    requires e.checks.Some? && Distinct(e.checks.value)
    ensures EditRule(Added(e), e) == Added(e)
  {
    var d := e.checks.value;
    forall i | 0 <= i < |d| ensures Settled(d, d[i]) {
      DistinctAt(d, i);
    }
    MergeFixed(d, d);
    assert ValuesOf(Added(e)) + Setting(STRICT, e.strict) == ValuesOf(Added(e));
  }

  /** Rewriting a rewritten ruleset changes nothing. */
  lemma RewriteIdempotent(rules: seq<Rule>, e: Edit)
    requires e.checks.Some? ==> Distinct(e.checks.value)
    ensures Rewritten(Rewritten(rules, e), e) == Rewritten(rules, e)
  {
    var once := Rewritten(rules, e);
    forall i | 0 <= i < |once| ensures EditRule(once[i], e) == once[i] {
      if i < |rules| {
        EditRuleTwice(rules[i], e);
      } else {
        AddedFixed(e);
      }
    }
    assert Edited(once, e) == once;
    EditedHas(rules, e, CHECKS);
    if Has(rules, CHECKS) {
      var i :| 0 <= i < |Edited(rules, e)| && Edited(rules, e)[i].kind == CHECKS;
      assert once[i].kind == CHECKS;
    } else if e.checks.Some? && e.checks.value != [] {
      assert once[|rules|].kind == CHECKS;
    }
  }

  // ---- the writers -----------------------------------------------------------------------

  /** Every queue rule has parameters. */
  predicate Rewritable(rules: seq<Rule>) {
    forall i :: 0 <= i < |rules| && rules[i].kind == QUEUE ==> rules[i].params.Some?
  }

  const NO_PARAMETERS := "parameters"
  const NOT_ONE_RULE := "check-only adoption requires one existing required-check rule and a declared check"

  method WithRules(rs: Ruleset, e: Edit) returns (r: Result<Ruleset, string>)
    requires e.queue.Some? && e.review.Some? && e.checks.Some?
    ensures r.Success? <==> Rewritable(rs.rules)
    ensures r.Success? ==> r.value == PutBody(rs).(rules := Rewritten(rs.rules, e))
  {
    var rules: seq<Rule> := [];
    var hasChecks := false;
    for i := 0 to |rs.rules|
      invariant rules == Edited(rs.rules[..i], e)
      invariant hasChecks <==> Has(rs.rules[..i], CHECKS)
      invariant Rewritable(rs.rules[..i])
    {
      var rule := rs.rules[i];
      assert rs.rules[..i + 1] == rs.rules[..i] + [rule];
      if rule.kind == QUEUE {
        if rule.params.None? {
          return Failure(NO_PARAMETERS);
        }
        rule := rule.(params := Some(Params(ValuesOf(rule) + e.queue.value, ListOf(rule))));
      } else if rule.kind == REVIEW {
        rule := rule.(params := Some(Params(ValuesOf(rule) + e.review.value, ListOf(rule))));
      } else if rule.kind == CHECKS {
        hasChecks := true;
        var merged := MergeChecks(ChecksOf(rule), e.checks.value);
        rule := rule.(params := Some(Params(ValuesOf(rule) + Setting(STRICT, e.strict), Some(merged))));
      }
      HasGrows(rs.rules[..i], rs.rules[i], CHECKS);
      EditedGrows(rs.rules[..i], rs.rules[i], e);
      rules := rules + [rule];
    }
    assert rs.rules[..|rs.rules|] == rs.rules;
    if e.checks.value != [] && !hasChecks {
      rules := rules + [Added(e)];
    }
    return Success(PutBody(rs).(rules := rules));
  }

  lemma HasGrows(rules: seq<Rule>, rule: Rule, kind: string)
    ensures Has(rules + [rule], kind) <==> Has(rules, kind) || rule.kind == kind
  {
    var more := rules + [rule];
    if i :| 0 <= i < |rules| && rules[i].kind == kind {
      assert more[i].kind == kind;
    }
    assert more[|rules|] == rule;
  }

  lemma EditedGrows(rules: seq<Rule>, rule: Rule, e: Edit)
    ensures Edited(rules + [rule], e) == Edited(rules, e) + [EditRule(rule, e)]
  {
  }

  function QueueEdit(settings: map<string, Value>): Edit {
    Edit(Some(settings), None, None, None)
  }

  function WithQueue(rs: Ruleset, settings: map<string, Value>): Ruleset {
    PutBody(rs).(rules := Edited(rs.rules, QueueEdit(settings)))
  }

  function ChecksEdit(checks: seq<Check>): Edit {
    Edit(None, None, Some(checks), None)
  }

  function CountKind(rules: seq<Rule>, kind: string): nat {
    if rules == [] then 0 else (if rules[0].kind == kind then 1 else 0) + CountKind(rules[1..], kind)
  }

  predicate ListsChecks(rules: seq<Rule>) {
    forall i :: 0 <= i < |rules| && rules[i].kind == CHECKS ==> ListOf(rules[i]).Some?
  }

  /** Adopting checks alone refuses anything but one existing rule with a list. */
  function WithChecksOnly(rs: Ruleset, checks: seq<Check>): Result<Ruleset, string> {
    if CountKind(rs.rules, CHECKS) != 1 || checks == [] then Failure(NOT_ONE_RULE)
    else if !ListsChecks(rs.rules) then Failure(NO_PARAMETERS)
    else Success(PutBody(rs).(rules := Edited(rs.rules, ChecksEdit(checks))))
  }

  /** Rule `i` is the one rule of this kind. */
  ghost predicate OnlyRule(rules: seq<Rule>, kind: string, i: nat) {
    && i < |rules| && rules[i].kind == kind
    && forall j :: 0 <= j < |rules| && j != i ==> rules[j].kind != kind
  }

  lemma {:induction false} CountNone(rules: seq<Rule>, kind: string)
    ensures CountKind(rules, kind) == 0 <==> !Has(rules, kind)
  {
    if rules != [] {
      CountNone(rules[1..], kind);
      HasRest(rules, kind);
    }
  }

  lemma HasRest(rules: seq<Rule>, kind: string)
    requires rules != []
    ensures Has(rules, kind) <==> rules[0].kind == kind || Has(rules[1..], kind)
  {
    if i :| 0 <= i < |rules| && rules[i].kind == kind {
      assert i > 0 ==> rules[1..][i - 1].kind == kind;
    }
    if i :| 0 <= i < |rules[1..]| && rules[1..][i].kind == kind {
      assert rules[i + 1].kind == kind;
    }
  }

  lemma {:induction false} CountOne(rules: seq<Rule>, kind: string) returns (i: nat)
    requires CountKind(rules, kind) == 1
    ensures OnlyRule(rules, kind, i)
  {
    var rest := rules[1..];
    if rules[0].kind == kind {
      i := 0;
      CountNone(rest, kind);
      forall j | 1 <= j < |rules| ensures rules[j].kind != kind {
        assert rest[j - 1].kind != kind;
      }
    } else {
      i := CountOne(rest, kind);
      forall j | 0 <= j < |rules| && j != i + 1 ensures rules[j].kind != kind {
        assert j > 0 ==> rest[j - 1].kind != kind;
      }
      i := i + 1;
    }
  }

  lemma {:induction false} OneCounts(rules: seq<Rule>, kind: string, i: nat)
    requires OnlyRule(rules, kind, i)
    ensures CountKind(rules, kind) == 1
  {
    var rest := rules[1..];
    if i == 0 {
      CountNone(rest, kind);
    } else {
      assert rules[0].kind != kind && rest[i - 1] == rules[i];
      assert forall j :: 0 <= j < |rest| && j != i - 1 ==> rest[j].kind != kind by {
        assert forall j :: 0 <= j < |rest| ==> rest[j] == rules[j + 1];
      }
      OneCounts(rest, kind, i - 1);
    }
  }

  /** Rule `i` is the one rule of checks, and has a list. */
  ghost predicate Adoptable(rules: seq<Rule>, i: nat) {
    OnlyRule(rules, "required_status_checks", i) && ListOf(rules[i]).Some?
  }

  /** Adopting checks alone succeeds exactly when there is one rule of checks, with a list, and something to adopt. */
  lemma ChecksOnlyExact(rs: Ruleset, checks: seq<Check>)
    ensures WithChecksOnly(rs, checks).Success? <==> checks != [] && exists i: nat :: Adoptable(rs.rules, i)
  {
    if CountKind(rs.rules, CHECKS) == 1 {
      var i := CountOne(rs.rules, CHECKS);
      assert ListsChecks(rs.rules) ==> Adoptable(rs.rules, i);
    }
    if i: nat :| Adoptable(rs.rules, i) {
      OneCounts(rs.rules, CHECKS, i);
    }
  }

  /** That rule gets the merged list, and everything else that a write carries stays. */
  lemma ChecksOnlySets(rs: Ruleset, checks: seq<Check>, i: nat)
    requires WithChecksOnly(rs, checks).Success? && Adoptable(rs.rules, i)
    ensures var r := WithChecksOnly(rs, checks).value;
      && r == PutBody(rs).(rules := r.rules) && |r.rules| == |rs.rules|
      && (forall j :: 0 <= j < |rs.rules| && j != i ==> r.rules[j] == rs.rules[j])
      && r.rules[i] == rs.rules[i].(params := Some(Params(ValuesOf(rs.rules[i]),
                                                          Some(Merge(ListOf(rs.rules[i]).value, checks)))))
  {
    OneEdited(rs.rules, i, checks);
  }

  lemma OneEdited(rules: seq<Rule>, i: nat, checks: seq<Check>)
    requires Adoptable(rules, i)
    ensures var edited := Edited(rules, ChecksEdit(checks));
      && (forall j :: 0 <= j < |rules| && j != i ==> edited[j] == rules[j])
      && edited[i] == rules[i].(params := Some(Params(ValuesOf(rules[i]), Some(Merge(ListOf(rules[i]).value, checks)))))
  {
    assert ValuesOf(rules[i]) + Setting(STRICT, None) == ValuesOf(rules[i]);
  }

  // ---- what is read of a ruleset ---------------------------------------------------------

  function First(rules: seq<Rule>, kind: string): Option<Rule> {
    if rules == [] then None
    else if rules[0].kind == kind then Some(rules[0])
    else First(rules[1..], kind)
  }

  lemma {:induction false} FirstEdited(rules: seq<Rule>, e: Edit, kind: string)
    ensures First(Edited(rules, e), kind)
         == (match First(rules, kind) case Some(r) => Some(EditRule(r, e)) case None => None)
  {
    if rules != [] {
      FirstEdited(rules[1..], e, kind);
      assert Edited(rules, e)[1..] == Edited(rules[1..], e);
    }
  }

  lemma {:induction false} FirstJoins(a: seq<Rule>, b: seq<Rule>, kind: string)
    ensures First(a + b, kind) == if First(a, kind).Some? then First(a, kind) else First(b, kind)
  {
    if a == [] {
      assert a + b == b;
    } else {
      FirstJoins(a[1..], b, kind);
      assert (a + b)[1..] == a[1..] + b;
    }
  }

  lemma {:induction false} FirstHas(rules: seq<Rule>, kind: string)
    ensures First(rules, kind).Some? <==> Has(rules, kind)
    ensures First(rules, kind).Some? ==> First(rules, kind).value.kind == kind && First(rules, kind).value in rules
  {
    if rules != [] {
      FirstHas(rules[1..], kind);
      if i :| 0 <= i < |rules[1..]| && rules[1..][i].kind == kind {
        assert rules[i + 1].kind == kind;
      }
      if i :| 0 <= i < |rules| && rules[i].kind == kind {
        assert i > 0 ==> rules[1..][i - 1].kind == kind;
      }
    }
  }

  /** The first rule of each kind after a rewrite. */
  lemma FirstRewritten(rules: seq<Rule>, e: Edit, kind: string)
    ensures First(rules, kind).Some? ==>
              First(Rewritten(rules, e), kind) == Some(EditRule(First(rules, kind).value, e))
    ensures First(rules, kind).None? ==>
              First(Rewritten(rules, e), kind)
              == if kind == CHECKS && e.checks.Some? && e.checks.value != [] then Some(Added(e)) else None
  {
    FirstEdited(rules, e, kind);
    FirstHas(rules, kind);
    var more := if e.checks.Some? && e.checks.value != [] && !Has(rules, CHECKS) then [Added(e)] else [];
    FirstJoins(Edited(rules, e), more, kind);
    if more != [] {
      assert more[1..] == [];
      assert First(more, kind) == if kind == CHECKS then Some(Added(e)) else None;
    }
  }
}
