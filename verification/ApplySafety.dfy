/** What every run of apply and rollback keeps, whatever the server answers. */
module ApplySafety {
  import opened Wrappers
  import opened Rulesets
  import opened Rewrites
  import opened RulesetPlan
  import opened Convergence
  import opened Equality
  import opened ApplyRun

  predicate IsPut(e: Event) {
    e.Asked? && e.request.Put?
  }

  /** This write puts the rewrite, for one of these rows, of the ruleset just read and just saved. */
  ghost predicate PreparedAt(p: Policy, only: Option<string>, rows: seq<Row>, log: seq<Event>, i: nat)
    requires i < |log| && IsPut(log[i])
  {
    && i >= 2 && log[i - 1].Saved? && log[i - 1].subject == log[i].request.subject
    && log[i - 2] == Asked(Get(log[i].request.subject), Answer(log[i - 1].before))
    && exists row :: row in rows && row.subject == log[i].request.subject
         && Write(p, only, row, log[i - 1].before) == Success(log[i].request.body)
  }

  /** Every write is prepared, and every backup is followed at once by its write. */
  ghost predicate Careful(p: Policy, only: Option<string>, rows: seq<Row>, log: seq<Event>) {
    && (forall i :: 0 <= i < |log| && IsPut(log[i]) ==> PreparedAt(p, only, rows, log, i))
    && (forall i :: 0 <= i < |log| && log[i].Saved? ==>
          i + 1 < |log| && IsPut(log[i + 1]) && log[i + 1].request.subject == log[i].subject)
  }

  lemma CarefulJoins(p: Policy, only: Option<string>, rows: seq<Row>, a: seq<Event>, b: seq<Event>)
    requires Careful(p, only, rows, a) && Careful(p, only, rows, b)
    ensures Careful(p, only, rows, a + b)
  {
    var log := a + b;
    forall i | 0 <= i < |log| && IsPut(log[i]) ensures PreparedAt(p, only, rows, log, i) {
      if i < |a| {
        assert PreparedAt(p, only, rows, a, i);
      } else {
        assert PreparedAt(p, only, rows, b, i - |a|);
      }
    }
    forall i | 0 <= i < |log| && log[i].Saved?
      ensures i + 1 < |log| && IsPut(log[i + 1]) && log[i + 1].request.subject == log[i].subject
    {
      if i < |a| {
        assert a[i].Saved? && log[i + 1] == a[i + 1];
      } else {
        assert b[i - |a|].Saved? && log[i + 1] == b[i - |a| + 1];
      }
    }
  }

  lemma RowCareful(p: Policy, only: Option<string>, rows: seq<Row>, row: Row, run: seq<Event>, end: Ending)
    requires row in rows && RowRun(p, only, row, run, end)
    ensures Careful(p, only, rows, run)
  {
    if |run| > 1 {
      var before := run[0].reply.rs;
      var body := Write(p, only, row, before).value;
      assert PutRun(only, row.subject, body, run[2..], end);
      assert run[2] == run[2..][0] && run[2].request == Put(row.subject, body);
      assert PreparedAt(p, only, rows, run, 2);
      assert |run| > 3 ==> run[3] == run[2..][1] && run[3].request == Get(row.subject);
    }
  }

  /** Every write of an apply follows the backup of the ruleset it rewrites, read just before; no other backup is
      ever taken. */
  lemma {:induction false} ApplyCareful(p: Policy, only: Option<string>, rows: seq<Row>, runs: seq<seq<Event>>,
                                        outcomes: seq<Outcome>)
    requires |runs| == |outcomes| <= |rows| && RowsRun(p, only, rows, runs, outcomes)
    ensures Careful(p, only, rows, Joined(runs))
  {
    if runs != [] {
      var i := |runs| - 1;
      ApplyCareful(p, only, rows, runs[..i], outcomes[..i]);
      RowCareful(p, only, rows, rows[i], runs[i], outcomes[i].ending);
      CarefulJoins(p, only, rows, Joined(runs[..i]), runs[i]);
    }
  }

  // ---- nothing after a refusal -----------------------------------------------------------

  /** A refusal is the last event. */
  ghost predicate RefusalLast(log: seq<Event>) {
    forall i :: 0 <= i < |log| - 1 && log[i].Asked? ==> !log[i].reply.Forbidden?
  }

  ghost predicate NoRefusal(log: seq<Event>) {
    forall i :: 0 <= i < |log| && log[i].Asked? ==> !log[i].reply.Forbidden?
  }

  lemma RowRefusal(p: Policy, only: Option<string>, row: Row, run: seq<Event>, end: Ending)
    requires RowRun(p, only, row, run, end)
    ensures RefusalLast(run) && (end != Stopped ==> NoRefusal(run))
  {
    if |run| > 1 {
      var body := Write(p, only, row, run[0].reply.rs).value;
      assert PutRun(only, row.subject, body, run[2..], end);
      PutRefusal(only, row.subject, body, run[2..], end);
      assert run == [run[0], run[1]] + run[2..];
      RefusalJoins([run[0], run[1]], run[2..]);
    }
  }

  lemma PutRefusal(only: Option<string>, s: Subject, body: Ruleset, run: seq<Event>, end: Ending)
    requires PutRun(only, s, body, run, end)
    ensures RefusalLast(run) && (end != Stopped ==> NoRefusal(run))
  {
  }

  lemma RefusalJoins(a: seq<Event>, b: seq<Event>)
    requires NoRefusal(a) && b != []
    ensures RefusalLast(b) ==> RefusalLast(a + b)
    ensures NoRefusal(b) ==> NoRefusal(a + b)
  {
  }

  lemma {:induction false} ThroughNoRefusal(p: Policy, only: Option<string>, rows: seq<Row>, runs: seq<seq<Event>>,
                                            outcomes: seq<Outcome>)
    requires |runs| == |outcomes| <= |rows| && RowsRun(p, only, rows, runs, outcomes) && Through(outcomes)
    ensures NoRefusal(Joined(runs))
  {
    if runs != [] {
      var i := |runs| - 1;
      ThroughNoRefusal(p, only, rows, runs[..i], outcomes[..i]);
      RowRefusal(p, only, rows[i], runs[i], outcomes[i].ending);
    }
  }

  /** After the first refusal nothing is sent any more, for any row. */
  lemma StopsAtRefusal(p: Policy, only: Option<string>, rows: seq<Row>, runs: seq<seq<Event>>, outcomes: seq<Outcome>)
    requires Runs(p, only, rows, runs, outcomes)
    ensures RefusalLast(Joined(runs))
  {
    if Through(outcomes) {
      ThroughNoRefusal(p, only, rows, runs, outcomes);
    } else {
      var i := |runs| - 1;
      ThroughNoRefusal(p, only, rows, runs[..i], outcomes[..i]);
      RowRefusal(p, only, rows[i], runs[i], outcomes[i].ending);
    }
  }

  // ---- what the outcomes mean ------------------------------------------------------------

  /** The server answered 403. */
  predicate IsRefusal(e: Event) {
    e.Asked? && e.reply.Forbidden?
  }

  predicate IsAnswer(e: Event) {
    e.Asked? && e.reply.Answer?
  }

  /** This reply can be read, and does not match what was put. */
  predicate Unlike(p: Policy, only: Option<string>, row: Row, run: seq<Event>, i: nat) {
    && i < |run| && IsAnswer(run[i]) && ViewOf(run[i].reply.rs, only).Success?
    && IsAnswer(run[0]) && Write(p, only, row, run[0].reply.rs).Success?
    && !Matches(run[i].reply.rs, Write(p, only, row, run[0].reply.rs).value, only)
  }

  /** A row is stopped if and only if its last reply is a refusal, and applied if and only if something was put and
      the last reply matches it; the ruleset is read a second time if and only if the reply to the write differs, and
      the row differs if and only if that reading does. */
  lemma RowOutcome(p: Policy, only: Option<string>, row: Row, run: seq<Event>, end: Ending)
    requires RowRun(p, only, row, run, end)
    ensures run != [] && (end == Stopped <==> IsRefusal(run[|run| - 1]))
    ensures end == Applied <==>
            && |run| >= 3 && IsAnswer(run[|run| - 1])
            && Matches(run[|run| - 1].reply.rs, Write(p, only, row, run[0].reply.rs).value, only)
    ensures end == Differs <==> |run| == 4 && Unlike(p, only, row, run, 3)
    ensures |run| == 4 <==> |run| >= 3 && Unlike(p, only, row, run, 2)
  {
    if |run| > 1 {
      var body := Write(p, only, row, run[0].reply.rs).value;
      assert PutRun(only, row.subject, body, run[2..], end);
      PutOutcome(only, row.subject, body, run[2..], end);
      assert run[|run| - 1] == run[2..][|run| - 3];
    }
  }

  lemma PutOutcome(only: Option<string>, s: Subject, body: Ruleset, run: seq<Event>, end: Ending)
    requires PutRun(only, s, body, run, end)
    ensures run != [] && (end == Stopped <==> IsRefusal(run[|run| - 1]))
    ensures end == Applied <==> IsAnswer(run[|run| - 1]) && Matches(run[|run| - 1].reply.rs, body, only)
    ensures end == Differs <==> |run| == 2 && UnlikeBody(run[1], body, only)
    ensures |run| == 2 <==> UnlikeBody(run[0], body, only)
  {
  }

  predicate UnlikeBody(e: Event, body: Ruleset, only: Option<string>) {
    IsAnswer(e) && ViewOf(e.reply.rs, only).Success? && !Matches(e.reply.rs, body, only)
  }

  lemma BackupOutcome(b: Backup, run: seq<Event>, end: Ending)
    requires RollbackRun(b, run, end)
    ensures run != [] && (end == Stopped <==> IsRefusal(run[|run| - 1]))
  {
    if |run| == 2 {
      assert PutBack(b.subject, RollbackBody(b.saved, run[0].reply.rs).value, run[1], end);
    }
  }

  /** Every row runs, unless a refusal comes, which is then the last reply. */
  lemma AllRowsRun(p: Policy, only: Option<string>, rows: seq<Row>, runs: seq<seq<Event>>, outcomes: seq<Outcome>)
    requires Runs(p, only, rows, runs, outcomes)
    ensures |outcomes| == |rows| || EndsRefused(Joined(runs))
  {
    if !Through(outcomes) {
      var i := |runs| - 1;
      RowOutcome(p, only, rows[i], runs[i], outcomes[i].ending);
      EndsJoined(runs);
    }
  }

  predicate EndsRefused(log: seq<Event>) {
    log != [] && IsRefusal(log[|log| - 1])
  }

  lemma EndsJoined(runs: seq<seq<Event>>)
    requires runs != [] && EndsRefused(runs[|runs| - 1])
    ensures EndsRefused(Joined(runs))
  {
    EndsConcat(Joined(runs[..|runs| - 1]), runs[|runs| - 1]);
  }

  lemma EndsConcat(a: seq<Event>, b: seq<Event>)
    requires EndsRefused(b)
    ensures EndsRefused(a + b)
  {
    assert (a + b)[|a + b| - 1] == b[|b| - 1];
  }

  /** Nor does a rollback leave out a backup before a refusal. */
  lemma AllBackupsRun(backups: seq<Backup>, runs: seq<seq<Event>>, outcomes: seq<Outcome>)
    requires Rollbacks(backups, runs, outcomes)
    ensures |outcomes| == |backups| || EndsRefused(Joined(runs))
  {
    if !Through(outcomes) {
      var i := |runs| - 1;
      assert BackupRun(backups[i], runs[i], outcomes[i]);
      BackupOutcome(backups[i], runs[i], outcomes[i].ending);
      EndsJoined(runs);
    }
  }

  // ---- applied means converged -----------------------------------------------------------

  /** Reading back as put leaves nothing to do exactly when this holds: the declared checks in scope name nothing but
      context and integration, and, unless only one context is adopted, the ruleset has the name its checks are
      declared for, its settings were chosen for that name, and its strict flag is a boolean. */
  ghost predicate Settles(p: Policy, only: Option<string>, row: Row, before: Ruleset, after: Ruleset) {
    var checks := Scope(p, row.subject, before.name, only);
    && AllPlain(checks)
    && (only.None? ==>
          && (checks == [] || after.name == before.name) && SameSettings(p, row.subject, row.name, before, after.name)
          && StrictIsFlag(before, after))
  }

  /** A row reported as applied: its last reply is a ruleset that matches what was put, and planning from it finds
      nothing to do if and only if the write settles. */
  lemma AppliedConverges(p: Policy, only: Option<string>, row: Row, run: seq<Event>)
    requires ValidPolicy(p) && RowRun(p, only, row, run, Applied)
    ensures run[0].reply.Answer? && run[|run| - 1].Asked? && run[|run| - 1].reply.Answer?
    ensures var before, after := run[0].reply.rs, run[|run| - 1].reply.rs;
      && Write(p, only, row, before).Success? && Matches(after, Write(p, only, row, before).value, only)
      && ReadItem(row.subject, after).Success?
      && (PlanItem(ReadItem(row.subject, after).value, p, only) == Success(NONE)
          <==> Settles(p, only, row, before, after))
  {
    AppliedMatches(p, only, row, run);
    var before, after := run[0].reply.rs, run[|run| - 1].reply.rs;
    if only.None? {
      Converged(p, row.subject, row.name, before, after);
    } else {
      OneContextConverged(p, row.subject, row.name, before, only.value, after);
    }
  }

  lemma AppliedMatches(p: Policy, only: Option<string>, row: Row, run: seq<Event>)
    requires RowRun(p, only, row, run, Applied)
    ensures run[0].reply.Answer? && run[|run| - 1].Asked? && run[|run| - 1].reply.Answer?
    ensures var before, after := run[0].reply.rs, run[|run| - 1].reply.rs;
      Write(p, only, row, before).Success? && Matches(after, Write(p, only, row, before).value, only)
  {
    var body := Write(p, only, row, run[0].reply.rs).value;
    assert PutRun(only, row.subject, body, run[2..], Applied);
    assert run[|run| - 1] == run[2..][|run| - 3];
  }

  /** The failing family: a ruleset planned under one name and read under another, whose settings differ, and a server
      that stores exactly what is put. The row is reported as applied, and the next plan drifts. */
  lemma RenamedApplied(p: Policy, row: Row, before: Ruleset) returns (run: seq<Event>)
    requires ValidPolicy(p) && Write(p, None, row, before).Success? && Has(before.rules, QUEUE)
    requires !Agree(p, row.subject.repo, row.name, before.name)
    ensures RowRun(p, None, row, run, Applied)
    ensures run[|run| - 1] == Asked(Put(row.subject, Write(p, None, row, before).value),
                                    Answer(Write(p, None, row, before).value))
    ensures var after := Write(p, None, row, before).value;
      ReadItem(row.subject, after).Success? && PlanItem(ReadItem(row.subject, after).value, p, None) != Success(NONE)
  {
    var body := Write(p, None, row, before).value;
    var put := Asked(Put(row.subject, body), Answer(body));
    assert EndOf(put.reply, body, None) == Applied;
    assert PutRun(None, row.subject, body, [put], Applied);
    assert [Saved(row.subject, before), put][1..] == [put];
    RowWritten(p, None, row, before, [Saved(row.subject, before), put], Applied);
    run := [Asked(Get(row.subject), Answer(before))] + [Saved(row.subject, before), put];
    RenamedDrifts(p, row.subject, row.name, before);
  }

  /** One such input: an override for the old name alone. */
  lemma RenamedInput() returns (p: Policy, row: Row, before: Ruleset)
    ensures ValidPolicy(p) && Write(p, None, row, before).Success? && Has(before.rules, QUEUE)
    ensures !Agree(p, row.subject.repo, row.name, before.name)
  {
    var settings := map key | key in PARAMS :: Num(1);
    var override := Override({"owner/name"}, "main", map["max_entries_to_build" := Num(5)]);
    p := Policy(settings, [override], Num(0), false, false, []);
    row := Row(Subject("owner/name", 1), "main", Drifting);
    before := Ruleset("prod", map[], [Rule(QUEUE, map[], Some(Params(settings, None)))]);
    assert p.overrides[..0] == [];
    assert DesiredSettings(p, "owner/name", "main")["max_entries_to_build"] == Num(5);
    assert "main"[0] != "prod"[0];
    assert Settings(p.overrides[..0], settings, "owner/name", "prod") == settings;
    assert DesiredSettings(p, "owner/name", "prod") == settings;
    assert NormMap(DesiredSettings(p, "owner/name", "main"))["max_entries_to_build"] == Num(5);
    assert NormMap(settings)["max_entries_to_build"] == Num(1);
    AgreeMeans(p, "owner/name", "main", "prod");
    assert before.rules[0].kind == QUEUE;
    BodyReads(p, row.subject, row.name, before);
  }

  /** A server that stores the strict flag as the number 0: the reply equals what was put, and the next plan drifts. */
  lemma StrictNumberInput() returns (p: Policy, row: Row, before: Ruleset, after: Ruleset)
    ensures ValidPolicy(p) && Write(p, None, row, before).Success?
    ensures Matches(after, Write(p, None, row, before).value, None)
    ensures ReadItem(row.subject, after).Success?
    ensures PlanItem(ReadItem(row.subject, after).value, p, None) != Success(NONE)
  {
    var settings := map key | key in PARAMS :: Num(1);
    p := Policy(settings, [], Num(0), false, false, []);
    row := Row(Subject("owner/name", 1), "main", Drifting);
    before := WithStrict(settings, Flag(false));
    after := WithStrict(settings, Num(0));
    StrictWrite(p, row, settings);
    StrictDrifts(p, row, settings, after);
  }

  /** A queue and a list of no checks with this strict flag. */
  function WithStrict(settings: map<string, Value>, strict: Value): Ruleset {
    Ruleset("main", map[],
      [Rule(QUEUE, map[], Some(Params(settings, None))),
          Rule(CHECKS, map[], Some(Params(map[STRICT := strict], Some([]))))])
  }

  lemma StrictReads(settings: map<string, Value>, strict: Value)
    requires settings.Keys == PARAMS
    ensures var rules := WithStrict(settings, strict).rules;
      && QueueParams(rules) == Success(Some(settings)) && ReviewCount(rules) == None && ExtraApproval(rules) == None
      && RequiredChecks(rules) == Some([]) && StrictFlag(rules) == strict
  {
    var rules := WithStrict(settings, strict).rules;
    assert QUEUE[0] == 'm' && CHECKS[0] == 'r' && REVIEW[0] == 'p';
    FirstOfTwo(rules, QUEUE);
    FirstOfTwo(rules, CHECKS);
    FirstOfTwo(rules, REVIEW);
    assert (map key | key in PARAMS :: settings[key]) == settings;
  }

  lemma FirstOfTwo(rules: seq<Rule>, kind: string)
    requires |rules| == 2
    ensures First(rules, kind) ==
            if rules[0].kind == kind then Some(rules[0]) else if rules[1].kind == kind then Some(rules[1]) else None
  {
    var rest := rules[1..];
    assert rest[0] == rules[1] && rest[1..] == [];
    assert First(rest, kind) == if rest[0].kind == kind then Some(rest[0]) else First([], kind);
    assert First(rules, kind) == if rules[0].kind == kind then Some(rules[0]) else First(rest, kind);
  }

  lemma StrictWrite(p: Policy, row: Row, settings: map<string, Value>)
    requires ValidPolicy(p) && p.overrides == [] && p.targets == [] && p.settings == settings && p.strict == false
    ensures Write(p, None, row, WithStrict(settings, Flag(false))).Success?
    ensures Matches(WithStrict(settings, Num(0)), Write(p, None, row, WithStrict(settings, Flag(false))).value, None)
  {
    var before := WithStrict(settings, Flag(false));
    StrictReads(settings, Num(0));
    assert ManagedOf(WithStrict(settings, Num(0)))
        == Success(Managed(Some(NormMap(settings)), None, None, Some(multiset{}), Num(0)));
    StrictBody(p, row.subject, row.name, before, settings);
  }

  lemma StrictBody(p: Policy, s: Subject, planned: string, before: Ruleset, settings: map<string, Value>)
    requires ValidPolicy(p) && p.overrides == [] && p.targets == [] && p.settings == settings && p.strict == false
    requires before == WithStrict(settings, Flag(false))
    ensures Body(p, s, planned, before, None).Success?
    ensures ManagedOf(Body(p, s, planned, before, None).value)
         == Success(Managed(Some(NormMap(settings)), None, None, Some(multiset{}), Num(0)))
  {
    StrictReads(settings, Flag(false));
    FirstHas(before.rules, QUEUE);
    FirstHas(before.rules, REVIEW);
    FirstHas(before.rules, CHECKS);
    BodyQueue(p, s, planned, before);
    BodyReview(p, s, planned, before);
    BodyChecks(p, s, planned, before);
    BodyStrict(p, s, planned, before);
    assert Merge([], []) == [];
    assert Scope(p, s, before.name, None) == [];
    assert DesiredSettings(p, s.repo, planned) == settings;
  }

  lemma StrictDrifts(p: Policy, row: Row, settings: map<string, Value>, after: Ruleset)
    requires ValidPolicy(p) && p.overrides == [] && p.targets == [] && p.settings == settings && p.strict == false
    requires after == WithStrict(settings, Num(0))
    ensures ReadItem(row.subject, after).Success?
    ensures PlanItem(ReadItem(row.subject, after).value, p, None) != Success(NONE)
  {
    StrictReads(settings, Num(0));
    assert ReadItem(row.subject, after).value.strict == Num(0);
  }

  // ---- rollback --------------------------------------------------------------------------

  /** A rollback puts the saved queue parameters back. */
  lemma RollbackRestoresQueue(saved: Ruleset, current: Ruleset)
    requires RollbackBody(saved, current).Success?
    ensures QueueParams(saved.rules).Success?
    ensures QueueParams(saved.rules).value.Some? ==>
              QueueParams(RollbackBody(saved, current).value.rules) == QueueParams(saved.rules)
  {
    if QueueParams(saved.rules).value.Some? {
      var e := QueueEdit(QueueParams(saved.rules).value.value);
      RewrittenQueue(current.rules, e);
      assert Rewritten(current.rules, e) == Edited(current.rules, e);
    }
  }

  /** It keeps every other field, rule and parameter as it stands now. */
  lemma RollbackKeeps(saved: Ruleset, current: Ruleset, i: nat)
    requires RollbackBody(saved, current).Success? && i < |current.rules|
    ensures var body := RollbackBody(saved, current).value;
      && body.name == current.name && body.fields == PutBody(current).fields && |body.rules| == |current.rules|
      && SameBut(current.rules[i], body.rules[i], PARAMS)
      && (current.rules[i].kind != QUEUE ==> body.rules[i] == current.rules[i])
  {
    if QueueParams(saved.rules).value.Some? {
      var e := QueueEdit(QueueParams(saved.rules).value.value);
      assert e.queue.value.Keys == PARAMS;
      EditRuleSame(current.rules[i], e);
      assert RollbackBody(saved, current).value.rules[i] == EditRule(current.rules[i], e);
    }
  }

  /** The reviews and the checks of the rollback body are those of the current ruleset. */
  lemma RollbackReads(saved: Ruleset, current: Ruleset)
    requires RollbackBody(saved, current).Success?
    ensures var rules := RollbackBody(saved, current).value.rules;
      && First(rules, REVIEW) == First(current.rules, REVIEW) && First(rules, CHECKS) == First(current.rules, CHECKS)
  {
    if QueueParams(saved.rules).value.Some? {
      var e := QueueEdit(QueueParams(saved.rules).value.value);
      FirstEdited(current.rules, e, REVIEW);
      FirstEdited(current.rules, e, CHECKS);
      FirstHas(current.rules, REVIEW);
      FirstHas(current.rules, CHECKS);
    }
  }

  /** RESTORED: up to equality, the final reply has the saved queue parameters, or the current ones where none were
      saved, and the review count, the extra approval, the bindings and the strict flag of the ruleset read before the
      write. */
  lemma RestoredMeans(b: Backup, run: seq<Event>)
    requires RollbackRun(b, run, Restored)
    ensures |run| == 2 && run[0].reply.Answer? && run[1].Asked? && run[1].reply.Answer?
    ensures QueueParams(b.saved.rules).Success? && ManagedOf(run[1].reply.rs).Success?
    ensures var current, after := run[0].reply.rs, ManagedOf(run[1].reply.rs).value;
      && (if QueueParams(b.saved.rules).value.Some? then after.queue == NormQueue(QueueParams(b.saved.rules).value)
          else QueueParams(current.rules).Success? && after.queue == NormQueue(QueueParams(current.rules).value))
      && after.count == NormOption(ReviewCount(current.rules)) && after.extra == ExtraApproval(current.rules)
      && after.strict == Norm(StrictFlag(current.rules))
      && after.bindings == BindingsOf(current.rules)
  {
    var current := run[0].reply.rs;
    assert PutBack(b.subject, RollbackBody(b.saved, current).value, run[1], Restored);
    RollbackReads(b.saved, current);
    RollbackRestoresQueue(b.saved, current);
  }

  /** Rolling back what was applied, with nothing else changed in between, gives the first queue rule back exactly
      as it was before; every other kind of rule stays as applied. */
  lemma RollbackUndoesQueue(p: Policy, s: Subject, planned: string, before: Ruleset)
    requires ValidPolicy(p) && Body(p, s, planned, before, None).Success? && Has(before.rules, QUEUE)
    ensures var body := Body(p, s, planned, before, None).value;
      && RollbackBody(before, body).Success?
      && First(RollbackBody(before, body).value.rules, QUEUE) == First(before.rules, QUEUE)
  {
    var body := Body(p, s, planned, before, None).value;
    var e := EditFor(p, s, planned, before).value;
    BodyQueue(p, s, planned, before);
    FirstHas(before.rules, QUEUE);
    var r := First(before.rules, QUEUE).value;
    FirstRewritten(before.rules, e, QUEUE);
    FirstHas(body.rules, QUEUE);
    var saved := QueueParams(before.rules).value.value;
    FirstEdited(body.rules, QueueEdit(saved), QUEUE);
    SettingsKeys(p.overrides, p.settings, s.repo, planned);
    SetAndUnset(ValuesOf(r), e.queue.value, saved);
    assert r.params.Some?;
  }

  lemma SetAndUnset(values: map<string, Value>, settings: map<string, Value>, saved: map<string, Value>)
    requires settings.Keys == saved.Keys <= values.Keys
    requires forall key :: key in saved ==> saved[key] == values[key]
    ensures values + settings + saved == values
  {
  }
}
